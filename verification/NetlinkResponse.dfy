/**
 * The netlink reply reader (common/netlink/netlink-message.cpp): a cursor over
 * a buffer of messages, and the proof that it reads back what the builder wrote.
 */
module NetlinkResponses {
  import opened Bytes
  import opened NetlinkMessages

  const NLMSG_DONE: nat := 3

  datatype Error = OutOfBuffer | WrongType | WrongLength | NoNestedEnd | NoNextMessage

  datatype Result<+T> = Ok(value: T) | Thrown(error: Error) {
    predicate IsFailure() { Thrown? }
    function PropagateFailure<U>(): Result<U>
      requires Thrown?
    {
      Thrown(error)
    }
    function Extract(): T
      requires Ok?
    {
      value
    }
  }

  /** NLMSG_OK: the header at `hdr` and the message it announces lie in the buffer. */
  predicate MessageOk(buf: seq<Byte>, hdr: nat) {
    hdr + HDRLEN <= |buf| && HDRLEN <= Get32(buf, hdr) <= |buf| - hdr
  }

  function MessageType(buf: seq<Byte>, hdr: nat): nat
    requires hdr + HDRLEN <= |buf|
  {
    Get16(buf, hdr + 4)
  }

  /** mNlmsg, the offset of mNlmsgHdr in it, mPosition and the stack of open nests. */
  datatype Reader = Reader(buf: seq<Byte>, hdr: nat, pos: nat, nested: seq<nat>) {

    /** Buffers come in whole words, and so do the steps from header to header. */
    predicate Placed() {
      && |buf| < INT_MAX_PLUS_1 && |buf| % 4 == 0
      && hdr <= |buf| && hdr % 4 == 0 && hdr <= pos
      && forall p :: p in nested ==> p + RTA_HDRLEN <= |buf|
    }

    predicate InMessage() {
      Placed() && MessageOk(buf, hdr)
    }

    function MessageEnd(): nat
      requires InMessage()
    {
      hdr + Get32(buf, hdr)
    }

    /** NLMSG_OK, then a payload (NLMSG_PAYLOAD) of more than four bytes. */
    predicate HasMessage() {
      MessageOk(buf, hdr) && Get32(buf, hdr) - HDRLEN > 4
    }

    function FetchNextMessage(): Result<Reader>
      requires InMessage()
    {
      if MessageType(buf, hdr) == NLMSG_DONE then Thrown(NoNextMessage)
      else var next := hdr + Align4(Get32(buf, hdr)); Ok(this.(hdr := next, pos := next + HDRLEN))
    }

    /** RTA_OK on what is left of the message. */
    predicate HasAttribute()
      requires InMessage()
    {
      var tail := MessageEnd() - pos;
      tail >= RTA_HDRLEN && RTA_HDRLEN <= Get16(buf, pos) <= tail
    }

    predicate Readable(len: nat) {
      pos + len <= |buf|
    }

    function GetAttributeType(): Result<nat> {
      if Readable(RTA_HDRLEN) then Ok(Get16(buf, pos + 2)) else Thrown(OutOfBuffer)
    }

    /** RTA_PAYLOAD: negative for a malformed attribute. */
    function GetAttributeLength(): Result<int> {
      if Readable(RTA_HDRLEN) then Ok(Get16(buf, pos) - RTA_HDRLEN) else Thrown(OutOfBuffer)
    }

    function Seek(len: nat): Result<Reader> {
      if Readable(len) then Ok(this.(pos := pos + len)) else Thrown(OutOfBuffer)
    }

    function SkipAttribute(): Result<Reader> {
      if Readable(RTA_HDRLEN) then Seek(Align4(Get16(buf, pos))) else Thrown(OutOfBuffer)
    }

    function OpenNested(ifla: int): Result<Reader> {
      if !Readable(RTA_HDRLEN) then Thrown(OutOfBuffer)
      else if Get16(buf, pos + 2) != ifla then Thrown(WrongType)
      else Ok(this.(pos := pos + RTA_HDRLEN, nested := nested + [pos]))
    }

    /** closeNested puts the cursor back on the nest's own header. */
    function CloseNested(): Result<Reader>
      requires Placed() && nested != []
    {
      var at := Last(nested);
      if Get16(buf, at) != pos - at then Thrown(NoNestedEnd)
      else Ok(this.(pos := at, nested := Front(nested)))
    }

    /** fetch(ifla, data, len): the payload must have exactly the length asked for. */
    function FetchData(ifla: int, len: nat): Result<(seq<Byte>, Reader)> {
      if !Readable(RTA_HDRLEN + len) then Thrown(OutOfBuffer)
      else if Get16(buf, pos + 2) != ifla then Thrown(WrongType)
      else if Get16(buf, pos) != RTA_HDRLEN + len then Thrown(WrongLength)
      else var next :- SkipAttribute(); Ok((buf[pos + RTA_HDRLEN..pos + RTA_HDRLEN + len], next))
    }

    /** An attribute at the cursor, if there is room for one, is not shorter than its header. */
    predicate AttributeSane() {
      Readable(RTA_HDRLEN) ==> RTA_HDRLEN <= Get16(buf, pos)
    }

    /** fetch(ifla, string, len): at most len bytes of the payload. */
    function FetchString(ifla: int, len: nat): Result<(seq<Byte>, Reader)>
      requires AttributeSane()
    {
      if !Readable(RTA_HDRLEN) then Thrown(OutOfBuffer)
      else if Get16(buf, pos + 2) != ifla then Thrown(WrongType)
      else if !Readable(Get16(buf, pos)) then Thrown(OutOfBuffer)
      else
        var payload := Get16(buf, pos) - RTA_HDRLEN;
        var n := if len > payload then payload else len;
        var next :- SkipAttribute();
        Ok((buf[pos + RTA_HDRLEN..pos + RTA_HDRLEN + n], next))
    }

    /** fetch(data, len): raw bytes at the cursor. */
    function FetchRaw(len: nat): Result<(seq<Byte>, Reader)> {
      var next :- Seek(len);
      Ok((buf[pos..pos + len], next))
    }
  }

  /** An acknowledgement, 16 bytes of header and 20 of payload, counts as a message whatever else it holds. */
  lemma AckIsMessage(rest: seq<Byte>)
    requires |rest| == 32
    ensures Reader(Put32(36) + rest, 0, HDRLEN, []).HasMessage()
  {
    var buf := Put32(36) + rest;
    assert At(buf, 0, Put32(36));
    Stored32(buf, 0, 36);
  }

  /** The usual NLMSG_DONE, with a payload of four bytes, does not. */
  lemma DoneIsNoMessage(rest: seq<Byte>)
    requires |rest| == 16
    ensures !Reader(Put32(20) + rest, 0, HDRLEN, []).HasMessage()
  {
    var buf := Put32(20) + rest;
    assert At(buf, 0, Put32(20));
    Stored32(buf, 0, 20);
  }

  // ---------------------------------------------------------------- reading a tree back

  /** What a client knows in advance: the kind of each node, not its type or payload. */
  datatype Shape = RawShape(len: nat) | LeafShape | NestShape(kids: seq<Shape>)

  function ShapeOf(n: Node): Shape {
    match n
    case Raw(d) => RawShape(|d|)
    case Leaf(_, _) => LeafShape
    case Nest(_, kids) => NestShape(ShapesOf(kids))
  }

  function ShapesOf(ns: seq<Node>): seq<Shape> {
    if ns == [] then [] else [ShapeOf(ns[0])] + ShapesOf(ns[1..])
  }

  /** The client loop: type, then payload or nest, taken from the wire. */
  function ReadNode(r: Reader, s: Shape): (res: Result<(Node, Reader)>)
    requires r.InMessage()
    ensures res.Ok? ==> SameMessage(r, res.value.1)
    decreases s
  {
    match s
    case RawShape(len) =>
      var (d, next) :- r.FetchRaw(len);
      Ok((Raw(d), next))
    case LeafShape =>
      if !r.HasAttribute() then Thrown(OutOfBuffer)
      else
        var t, len := r.GetAttributeType().value, r.GetAttributeLength().value;
        var (d, next) :- r.FetchData(t, len);
        Ok((Leaf(t, d), next))
    case NestShape(kids) =>
      if !r.HasAttribute() then Thrown(OutOfBuffer)
      else
        var t := r.GetAttributeType().value;
        var (ns, read) :- ReadNodes(r.OpenNested(t).value, kids);
        var closed :- read.CloseNested();
        var next :- closed.SkipAttribute();
        Ok((Nest(t, ns), next))
  }

  function ReadNodes(r: Reader, ss: seq<Shape>): (res: Result<(seq<Node>, Reader)>)
    requires r.InMessage()
    ensures res.Ok? ==> SameMessage(r, res.value.1)
    decreases ss
  {
    if ss == [] then Ok(([], r))
    else
      var (n, next) :- ReadNode(r, ss[0]);
      var (ns, last) :- ReadNodes(next, ss[1..]);
      Ok(([n] + ns, last))
  }

  /** Same message and same open nests, cursor not before the header. */
  predicate SameMessage(r: Reader, next: Reader) {
    next.InMessage() && next.buf == r.buf && next.hdr == r.hdr && next.nested == r.nested
  }

  /** The bytes lie at the cursor, inside the message. */
  predicate Ahead(r: Reader, s: seq<Byte>)
    requires r.InMessage()
  {
    At(r.buf, r.pos, s) && r.pos + |s| <= r.MessageEnd()
  }

  lemma HeaderAhead(r: Reader, len: int, t: int, rest: seq<Byte>)
    requires r.InMessage() && Ahead(r, AttrHeader(len, t) + rest)
    requires 0 <= len < 0x1_0000 && 0 <= t < 0x1_0000
    ensures Get16(r.buf, r.pos) == len && Get16(r.buf, r.pos + 2) == t
    ensures At(r.buf, r.pos + RTA_HDRLEN, rest)
  {
    AtSplit(r.buf, r.pos, AttrHeader(len, t), rest);
    AtSplit(r.buf, r.pos, Put16(len), Put16(t));
    Stored16(r.buf, r.pos, len);
    Stored16(r.buf, r.pos + 2, t);
  }

  lemma {:induction false} ReadNodeBack(r: Reader, n: Node)
    requires r.InMessage() && Fits(n) && Ahead(r, Encode(n))
    ensures ReadNode(r, ShapeOf(n)) == Ok((n, r.(pos := r.pos + |Encode(n)|)))
    decreases n, 1
  {
    hide Get16, Get32, Align4, EncodeAll, ReadNodes, ShapesOf;
    match n {
      case Raw(d) =>
      case Leaf(t, d) => LeafBack(r, t, d);
      case Nest(t, kids) => NestReadIsSkip(r, t, kids);
    }
  }

  lemma LeafBack(r: Reader, t: int, d: seq<Byte>)
    requires r.InMessage() && Fits(Leaf(t, d)) && Ahead(r, Encode(Leaf(t, d)))
    ensures r.HasAttribute() && r.GetAttributeType() == Ok(t) && r.GetAttributeLength() == Ok(|d|)
    ensures r.FetchData(t, |d|) == Ok((d, r.(pos := r.pos + |Encode(Leaf(t, d))|)))
    ensures r.SkipAttribute() == Ok(r.(pos := r.pos + |Encode(Leaf(t, d))|))
  {
    hide Align4, Get32, Put16;
    var pad := Zeros(Align4(|d|) - |d|);
    assert Encode(Leaf(t, d)) == AttrHeader(RTA_HDRLEN + |d|, t) + (d + pad);
    HeaderAhead(r, RTA_HDRLEN + |d|, t, d + pad);
    AtSplit(r.buf, r.pos + RTA_HDRLEN, d, pad);
    AlignShift(1, |d|);
  }

  /**
   * Reading back what was written: at any nesting depth the client gets the
   * same nodes in the same order and stops right behind them.
   */
  lemma {:induction false} ReadNodesBack(r: Reader, ns: seq<Node>)
    requires r.InMessage() && AllFit(ns) && Ahead(r, EncodeAll(ns))
    ensures ReadNodes(r, ShapesOf(ns)) == Ok((ns, r.(pos := r.pos + |EncodeAll(ns)|)))
    decreases ns
  {
    hide At, Get16, Get32, Fits, Encode, ShapeOf, ReadNode;
    if ns != [] {
      var n, rest := ns[0], ns[1..];
      assert Fits(n);
      AtSplit(r.buf, r.pos, Encode(n), EncodeAll(rest));
      ReadNodeBack(r, n);
      ReadNodesBack(r.(pos := r.pos + |Encode(n)|), rest);
      assert ShapesOf(ns)[1..] == ShapesOf(rest);
      assert [n] + rest == ns;
    }
  }

  /** A built message, received as it is, reads back as the tree it was built from. */
  lemma BuiltMessageReadsBack(fields: seq<Byte>, tree: seq<Node>)
    requires |fields| == HDRLEN - 4 && AllFit(tree) && HDRLEN + |EncodeAll(tree)| < INT_MAX_PLUS_1
    ensures CanRun(Builder(fields, [], []), CallsAll(tree))
    ensures var r := Reader(Buffer(Run(Builder(fields, [], []), CallsAll(tree))), 0, HDRLEN, []);
            && r.InMessage()
            && ReadNodes(r, ShapesOf(tree)) == Ok((tree, r.(pos := |r.buf|)))
            && !r.(pos := |r.buf|).HasAttribute()
  {
    EveryTreeIsWritten(fields, tree);
    var r := Reader(Put32(HDRLEN + |EncodeAll(tree)|) + fields + EncodeAll(tree), 0, HDRLEN, []);
    WholeMessage(fields, tree, r);
    ReadNodesBack(r, tree);
  }

  lemma {:induction false} WholeMessage(fields: seq<Byte>, tree: seq<Node>, r: Reader)
    requires |fields| == HDRLEN - 4 && AllFit(tree) && HDRLEN + |EncodeAll(tree)| < INT_MAX_PLUS_1
    requires r == Reader(Put32(HDRLEN + |EncodeAll(tree)|) + fields + EncodeAll(tree), 0, HDRLEN, [])
    ensures r.InMessage() && r.MessageEnd() == |r.buf| && Ahead(r, EncodeAll(tree))
  {
    hide Get16, Put16, Encode, EncodeAll;
    var text := EncodeAll(tree);
    assert At(r.buf, 0, Put32(HDRLEN + |text|));
    Stored32(r.buf, 0, HDRLEN + |text|);
    EncodeAllAligned(tree);
    SumAligned(HDRLEN, |text|);
    assert At(r.buf, HDRLEN, text);
  }

  /** A built message behind the present one reads back as its tree after fetchNextMessage, up to its end. */
  lemma FetchedMessageReadsBack(r: Reader, fields: seq<Byte>, tree: seq<Node>)
    requires r.InMessage() && MessageType(r.buf, r.hdr) != NLMSG_DONE
    requires |fields| == HDRLEN - 4 && AllFit(tree) && HDRLEN + |EncodeAll(tree)| < INT_MAX_PLUS_1
    requires At(r.buf, r.hdr + Align4(Get32(r.buf, r.hdr)), Put32(HDRLEN + |EncodeAll(tree)|) + (fields + EncodeAll(tree)))
    ensures r.FetchNextMessage().Ok?
    ensures var next := r.FetchNextMessage().value;
            && next.InMessage() && next.hdr == r.hdr + Align4(Get32(r.buf, r.hdr))
            && ReadNodes(next, ShapesOf(tree)) == Ok((tree, next.(pos := next.MessageEnd())))
  {
    hide Get16, Get32, At, Align4, Encode, EncodeAll, Put32, ReadNodes, ShapesOf, Fits;
    TextBehind(r.buf, r.hdr + Align4(Get32(r.buf, r.hdr)), fields, EncodeAll(tree));
    AlignInside(r.hdr, Get32(r.buf, r.hdr), |r.buf|);
    ReadNodesBack(r.FetchNextMessage().value, tree);
  }

  /** A message text in a buffer: a complete message of its length, with the body behind the header. */
  lemma TextBehind(buf: seq<Byte>, at: nat, fields: seq<Byte>, text: seq<Byte>)
    requires |fields| == HDRLEN - 4 && HDRLEN + |text| < INT_MAX_PLUS_1
    requires At(buf, at, Put32(HDRLEN + |text|) + (fields + text))
    ensures at + HDRLEN <= |buf| && Get32(buf, at) == HDRLEN + |text| && MessageOk(buf, at)
    ensures At(buf, at + HDRLEN, text)
  {
    hide Get16, Put16;
    AtSplit(buf, at, Put32(HDRLEN + |text|), fields + text);
    AtSplit(buf, at + 4, fields, text);
    Stored32(buf, at, HDRLEN + |text|);
  }

  /** A string put with its terminator comes back without it. */
  lemma StringReadsBack(r: Reader, t: int, s: seq<Byte>)
    requires r.InMessage() && Fits(Leaf(t, s + [0])) && Ahead(r, Encode(Leaf(t, s + [0])))
    ensures r.GetAttributeLength() == Ok(|s| + 1) && r.AttributeSane()
    ensures r.FetchString(t, r.GetAttributeLength().value - 1)
         == Ok((s, r.(pos := r.pos + |Encode(Leaf(t, s + [0]))|)))
  {
    hide Get16, Get32, At, Align4, Encode;
    LeafBack(r, t, s + [0]);
    StringPrefix(r, t, s + [0], |s|);
    assert (s + [0])[..|s|] == s;
  }

  /** What the reader sees at a nest. */
  lemma NestHeader(r: Reader, t: int, kids: seq<Node>)
    requires r.InMessage() && Fits(Nest(t, kids)) && Ahead(r, Encode(Nest(t, kids)))
    ensures Get16(r.buf, r.pos) == RTA_HDRLEN + |EncodeAll(kids)| == |Encode(Nest(t, kids))|
    ensures r.HasAttribute() && r.GetAttributeType() == Ok(t) && r.OpenNested(t) == Ok(Inside(r))
    ensures Inside(r).InMessage() && Inside(r).MessageEnd() == r.MessageEnd() && Ahead(Inside(r), EncodeAll(kids))
  {
    hide Get32, EncodeAll, AttrHeader;
    var body := EncodeAll(kids);
    HeaderAhead(r, RTA_HDRLEN + |body|, t, body);
  }

  /** Opening, reading and closing a nest and then skipping it is skipping it. */
  lemma {:induction false} NestReadIsSkip(r: Reader, t: int, kids: seq<Node>)
    requires r.InMessage() && Fits(Nest(t, kids)) && Ahead(r, Encode(Nest(t, kids)))
    ensures r.HasAttribute() && r.GetAttributeType() == Ok(t)
    ensures r.OpenNested(t) == Ok(Inside(r))
    ensures var read := Inside(r).(pos := Inside(r).pos + |EncodeAll(kids)|);
            ReadNodes(Inside(r), ShapesOf(kids)) == Ok((kids, read)) && read.CloseNested() == Ok(r)
    ensures r.SkipAttribute() == Ok(r.(pos := r.pos + |Encode(Nest(t, kids))|))
    decreases Nest(t, kids), 0
  {
    hide At, Get32, Align4, Encode, EncodeAll, ReadNodes, ShapesOf;
    var body := EncodeAll(kids);
    NestHeader(r, t, kids);
    assert Align4(RTA_HDRLEN + |body|) == RTA_HDRLEN + |body| by {
      EncodeAllAligned(kids);
      AlignedStays(RTA_HDRLEN + |body|);
    }
    ReadNodesBack(Inside(r), kids);
    CloseWants(r, Inside(r).(pos := Inside(r).pos + |body|));
  }

  /** The reader behind the header of the nest at its cursor. */
  function Inside(r: Reader): Reader {
    r.(pos := r.pos + RTA_HDRLEN, nested := r.nested + [r.pos])
  }

  /** Closing the nest opened at r succeeds only at its end. */
  lemma CloseWants(r: Reader, stop: Reader)
    requires r.InMessage() && r.pos + RTA_HDRLEN <= |r.buf| && stop == Inside(r).(pos := stop.pos) && stop.Placed()
    ensures stop.CloseNested() == if Get16(r.buf, r.pos) != stop.pos - r.pos then Thrown(NoNestedEnd) else Ok(r)
  {
    hide Get16, Get32;
    assert Front(r.nested + [r.pos]) == r.nested;
  }

  /** Closing a nest before its end is refused, whatever was read so far. */
  lemma {:induction false} EarlyCloseRefused(r: Reader, t: int, read: seq<Node>, rest: seq<Node>)
    requires r.InMessage() && Fits(Nest(t, read + rest)) && Ahead(r, Encode(Nest(t, read + rest)))
    requires EncodeAll(rest) != []
    ensures r.OpenNested(t) == Ok(Inside(r))
    ensures var stop := Inside(r).(pos := Inside(r).pos + |EncodeAll(read)|);
            ReadNodes(Inside(r), ShapesOf(read)) == Ok((read, stop)) && stop.CloseNested() == Thrown(NoNestedEnd)
  {
    hide At, Get16, Get32, Align4, Encode, EncodeAll, ReadNodes, ShapesOf;
    EncodeAllAppend(read, rest);
    NestHeader(r, t, read + rest);
    AtSplit(r.buf, Inside(r).pos, EncodeAll(read), EncodeAll(rest));
    assert AllFit(read) by { forall n | n in read ensures Fits(n) { assert n in read + rest; } }
    ReadNodesBack(Inside(r), read);
    CloseWants(r, Inside(r).(pos := Inside(r).pos + |EncodeAll(read)|));
  }

  /** A written attribute or nest is refused under any other type, by each of the calls that name one. */
  lemma WrongTypeRefused(r: Reader, n: Node, t: int, len: nat)
    requires r.InMessage() && Fits(n) && !n.Raw? && Ahead(r, Encode(n)) && t != n.typ
    requires r.Readable(RTA_HDRLEN + len)
    ensures r.OpenNested(t) == Thrown(WrongType) && r.FetchData(t, len) == Thrown(WrongType)
    ensures r.AttributeSane() && r.FetchString(t, len) == Thrown(WrongType)
  {
    hide Get32, EncodeAll, Align4;
    FlatBack(r, n);
  }

  /** A written attribute is refused under any other length, and past the end of the buffer. */
  lemma WrongLengthRefused(r: Reader, t: int, d: seq<Byte>, len: nat)
    requires r.InMessage() && Fits(Leaf(t, d)) && Ahead(r, Encode(Leaf(t, d))) && len != |d|
    ensures r.FetchData(t, len) == Thrown(if r.pos + RTA_HDRLEN + len <= |r.buf| then WrongLength else OutOfBuffer)
  {
    hide Get32, Align4;
    LeafBack(r, t, d);
  }

  /** Fetching text gives as much of the payload as was asked for, and moves past the attribute all the same. */
  lemma StringPrefix(r: Reader, t: int, d: seq<Byte>, len: nat)
    requires r.InMessage() && Fits(Leaf(t, d)) && Ahead(r, Encode(Leaf(t, d)))
    ensures r.AttributeSane()
    ensures r.FetchString(t, len) == Ok((if len < |d| then d[..len] else d, r.(pos := r.pos + |Encode(Leaf(t, d))|)))
  {
    LeafBack(r, t, d);
    var at := r.pos + RTA_HDRLEN;
    assert r.buf[at..at + |d|] == d;
    assert len < |d| ==> r.buf[at..at + len] == r.buf[at..at + |d|][..len];
  }

  // ---------------------------------------------------------------- the flat attribute loop

  /** The clients' loop: while there is an attribute, fetch it if its type is wanted, else skip it. */
  function ReadAttributes(r: Reader, wanted: set<nat>): Result<seq<(nat, seq<Byte>)>>
    requires r.InMessage()
    decreases |r.buf| - r.pos
  {
    if !r.HasAttribute() then Ok([])
    else
      var t, len := r.GetAttributeType().value, r.GetAttributeLength().value;
      if t in wanted then
        var (d, next) :- r.FetchData(t, len);
        var rest :- ReadAttributes(next, wanted);
        Ok([(t, d)] + rest)
      else
        var next :- r.SkipAttribute();
        ReadAttributes(next, wanted)
  }

  /** What the loop returns when it has read `read` and will return `rest`. */
  function After(read: seq<(nat, seq<Byte>)>, rest: Result<seq<(nat, seq<Byte>)>>): Result<seq<(nat, seq<Byte>)>> {
    if rest.Ok? then Ok(read + rest.value) else rest
  }

  lemma AfterNone(rest: Result<seq<(nat, seq<Byte>)>>)
    ensures After([], rest) == rest
  {
    if rest.Ok? { assert [] + rest.value == rest.value; }
  }

  lemma AfterLast(read: seq<(nat, seq<Byte>)>)
    ensures After(read, Ok([])) == Ok(read)
    ensures forall e :: After(read, Thrown(e)) == Thrown(e)
  {
    assert read + [] == read;
  }

  lemma AfterOne(read: seq<(nat, seq<Byte>)>, x: (nat, seq<Byte>), rest: Result<seq<(nat, seq<Byte>)>>)
    ensures After(read + [x], rest) == After(read, After([x], rest))
    ensures After([x], rest) == if rest.Ok? then Ok([x] + rest.value) else rest
  {
    if rest.Ok? { assert read + [x] + rest.value == read + ([x] + rest.value); }
  }

  /** A nest, read as a plain attribute, is its type and its encoded contents. */
  function Flat(n: Node): (nat, seq<Byte>)
    requires Fits(n) && !n.Raw?
  {
    match n
    case Leaf(t, d) => (t, d)
    case Nest(t, kids) => (t, EncodeAll(kids))
  }

  function FlatAll(ns: seq<Node>): seq<(nat, seq<Byte>)>
    requires AllFit(ns) && forall n :: n in ns ==> !n.Raw?
  {
    if ns == [] then [] else assert ns[0] in ns; [Flat(ns[0])] + FlatAll(ns[1..])
  }

  function Selected(attrs: seq<(nat, seq<Byte>)>, wanted: set<nat>): seq<(nat, seq<Byte>)> {
    if attrs == [] then []
    else (if attrs[0].0 in wanted then [attrs[0]] else []) + Selected(attrs[1..], wanted)
  }

  /** The attribute loop returns every wanted attribute of the message, in order, and stops at its end. */
  lemma {:induction false} AttributeLoopReadsAll(r: Reader, ns: seq<Node>, wanted: set<nat>)
    requires r.InMessage() && AllFit(ns) && (forall n :: n in ns ==> !n.Raw?)
    requires Ahead(r, EncodeAll(ns)) && r.pos + |EncodeAll(ns)| == r.MessageEnd()
    ensures ReadAttributes(r, wanted) == Ok(Selected(FlatAll(ns), wanted))
    decreases ns
  {
    hide At, Get16, Get32, Encode, Fits, Flat;
    if ns != [] {
      var n, rest := ns[0], ns[1..];
      assert Fits(n) && !n.Raw?;
      AtSplit(r.buf, r.pos, Encode(n), EncodeAll(rest));
      FlatBack(r, n);
      AttributeLoopReadsAll(r.(pos := r.pos + |Encode(n)|), rest, wanted);
      assert FlatAll(ns)[0] == Flat(n) && FlatAll(ns)[1..] == FlatAll(rest);
      var others := Selected(FlatAll(rest), wanted);
      assert [] + others == others && Flat(n) == (Flat(n).0, Flat(n).1);
    }
  }

  lemma FlatBack(r: Reader, n: Node)
    requires r.InMessage() && Fits(n) && !n.Raw? && Ahead(r, Encode(n))
    ensures r.HasAttribute() && r.GetAttributeType() == Ok(Flat(n).0) && r.GetAttributeLength() == Ok(|Flat(n).1|)
    ensures r.FetchData(Flat(n).0, |Flat(n).1|) == Ok((Flat(n).1, r.(pos := r.pos + |Encode(n)|)))
    ensures r.SkipAttribute() == Ok(r.(pos := r.pos + |Encode(n)|))
  {
    hide Get16, Get32, At, Align4, EncodeAll, AttrHeader;
    match n {
      case Leaf(t, d) => LeafBack(r, t, d);
      case Nest(t, kids) =>
        EncodeAllAligned(kids);
        AlignedStays(|EncodeAll(kids)|);
        assert Encode(n) == Encode(Leaf(t, EncodeAll(kids)));
        LeafBack(r, t, EncodeAll(kids));
    }
  }

  // ---------------------------------------------------------------- the class

  class NetlinkResponse {
    const mNlmsg: seq<Byte>
    var mNested: seq<nat>
    var mNlmsgHdr: nat
    var mPosition: nat

    ghost predicate Valid()
      reads this
    {
      State().Placed()
    }

    ghost function State(): Reader
      reads this
    {
      Reader(mNlmsg, mNlmsgHdr, mPosition, mNested)
    }

    constructor (message: seq<Byte>)
      requires |message| < INT_MAX_PLUS_1 && |message| % 4 == 0
      ensures Valid() && State() == Reader(message, 0, HDRLEN, [])
    {
      mNlmsg := message;
      mNlmsgHdr := 0;
      mPosition := HDRLEN;
      mNested := [];
    }

    /** The remainder is unsigned; it cannot wrap because the header is inside the buffer. */
    method HasMessage() returns (b: bool)
      requires Valid()
      ensures b == State().HasMessage()
      ensures b ==> State().InMessage()
    {
      var tail := (|mNlmsg| - mNlmsgHdr) % 0x1_0000_0000;
      if tail < HDRLEN || Get32(mNlmsg, mNlmsgHdr) < HDRLEN || Get32(mNlmsg, mNlmsgHdr) > tail {
        return false;
      }
      return Get32(mNlmsg, mNlmsgHdr) - HDRLEN > 4;
    }

    method FetchNextMessage() returns (r: Result<()>)
      requires Valid() && State().InMessage()
      modifies this`mNlmsgHdr, this`mPosition
      ensures Valid()
      ensures match old(State()).FetchNextMessage()
              case Ok(next) => r == Ok(()) && State() == next && mNlmsgHdr >= old(mNlmsgHdr) + HDRLEN
              case Thrown(e) => r == Thrown(e) && State() == old(State())
    {
      if MessageType(mNlmsg, mNlmsgHdr) == NLMSG_DONE {
        return Thrown(NoNextMessage);
      }
      AlignInside(mNlmsgHdr, Get32(mNlmsg, mNlmsgHdr), |mNlmsg|);
      hide Align4, Get32, Get16;
      mNlmsgHdr := mNlmsgHdr + Align4(Get32(mNlmsg, mNlmsgHdr));
      mPosition := mNlmsgHdr + HDRLEN;
      return Ok(());
    }

    method HasAttribute() returns (b: bool)
      requires Valid() && State().InMessage()
      ensures b == State().HasAttribute()
    {
      var tail := Get32(mNlmsg, mNlmsgHdr) - (mPosition - mNlmsgHdr);
      b := tail >= RTA_HDRLEN && RTA_HDRLEN <= Get16(mNlmsg, mPosition) <= tail;
    }

    method SkipAttribute() returns (r: Result<()>)
      requires Valid()
      modifies this`mPosition
      ensures Valid()
      ensures match old(State()).SkipAttribute()
              case Ok(next) => r == Ok(()) && State() == next
              case Thrown(e) => r == Thrown(e) && State() == old(State())
    {
      if |mNlmsg| < mPosition + RTA_HDRLEN {
        return Thrown(OutOfBuffer);
      }
      var len := Align4(Get16(mNlmsg, mPosition));
      if |mNlmsg| < mPosition + len {
        return Thrown(OutOfBuffer);
      }
      mPosition := mPosition + len;
      return Ok(());
    }

    method OpenNested(ifla: int) returns (r: Result<()>)
      requires Valid()
      modifies this
      ensures Valid()
      ensures match old(State()).OpenNested(ifla)
              case Ok(next) => r == Ok(()) && State() == next
              case Thrown(e) => r == Thrown(e) && State() == old(State())
    {
      if |mNlmsg| < mPosition + RTA_HDRLEN {
        return Thrown(OutOfBuffer);
      }
      if Get16(mNlmsg, mPosition + 2) != ifla {
        return Thrown(WrongType);
      }
      var pos := mPosition;
      mPosition := mPosition + RTA_HDRLEN;
      mNested := mNested + [pos];
      return Ok(());
    }

    /** The cursor is not before the header, as long as the nest was opened in this message. */
    method CloseNested() returns (r: Result<()>)
      requires Valid() && mNested != [] && mNlmsgHdr <= Last(mNested)
      modifies this
      ensures Valid()
      ensures match old(State()).CloseNested()
              case Ok(next) => r == Ok(()) && State() == next
              case Thrown(e) => r == Thrown(e) && State() == old(State())
    {
      var pos := Last(mNested);
      if Get16(mNlmsg, pos) != mPosition - pos {
        return Thrown(NoNestedEnd);
      }
      mNested := Front(mNested);
      mPosition := pos;
      return Ok(());
    }

    method FetchData(ifla: int, len: nat) returns (r: Result<seq<Byte>>)
      requires Valid()
      modifies this`mPosition
      ensures Valid()
      ensures match old(State()).FetchData(ifla, len)
              case Ok((d, next)) => r == Ok(d) && State() == next
              case Thrown(e) => r == Thrown(e) && State() == old(State())
    {
      if |mNlmsg| < mPosition + RTA_HDRLEN + len {
        return Thrown(OutOfBuffer);
      }
      if Get16(mNlmsg, mPosition + 2) != ifla {
        return Thrown(WrongType);
      }
      if Get16(mNlmsg, mPosition) != RTA_HDRLEN + len {
        return Thrown(WrongLength);
      }
      var data := mNlmsg[mPosition + RTA_HDRLEN..mPosition + RTA_HDRLEN + len];
      var skipped := SkipAttribute();
      if skipped.Thrown? {
        return Thrown(skipped.error);
      }
      return Ok(data);
    }

    method FetchString(ifla: int, len: nat) returns (r: Result<seq<Byte>>)
      requires Valid() && State().AttributeSane()
      modifies this`mPosition
      ensures Valid()
      ensures match old(State()).FetchString(ifla, len)
              case Ok((d, next)) => r == Ok(d) && State() == next
              case Thrown(e) => r == Thrown(e) && State() == old(State())
    {
      if |mNlmsg| < mPosition + RTA_HDRLEN {
        return Thrown(OutOfBuffer);
      }
      var n := len;
      if n > Get16(mNlmsg, mPosition) - RTA_HDRLEN {
        n := Get16(mNlmsg, mPosition) - RTA_HDRLEN;
      }
      if Get16(mNlmsg, mPosition + 2) != ifla {
        return Thrown(WrongType);
      }
      if |mNlmsg| < mPosition + Get16(mNlmsg, mPosition) {
        return Thrown(OutOfBuffer);
      }
      var value := mNlmsg[mPosition + RTA_HDRLEN..mPosition + RTA_HDRLEN + n];
      var skipped := SkipAttribute();
      if skipped.Thrown? {
        return Thrown(skipped.error);
      }
      return Ok(value);
    }

    method FetchRaw(len: nat) returns (r: Result<seq<Byte>>)
      requires Valid()
      modifies this`mPosition
      ensures Valid()
      ensures match old(State()).FetchRaw(len)
              case Ok((d, next)) => r == Ok(d) && State() == next
              case Thrown(e) => r == Thrown(e) && State() == old(State())
    {
      if |mNlmsg| < mPosition + len {
        return Thrown(OutOfBuffer);
      }
      var data := mNlmsg[mPosition..mPosition + len];
      mPosition := mPosition + len;
      return Ok(data);
    }

    /** The client loop over one message's attributes: each turn moves at least four bytes. */
    method FetchAll(wanted: set<nat>) returns (r: Result<seq<(nat, seq<Byte>)>>)
      requires Valid() && State().InMessage()
      modifies this`mPosition
      ensures Valid()
      ensures r == ReadAttributes(old(State()), wanted)
    {
      hide Get16, Get32, Align4, After;
      var read: seq<(nat, seq<Byte>)> := [];
      AfterNone(ReadAttributes(State(), wanted));
      var more := HasAttribute();
      while more
        invariant Valid() && State().InMessage() && mNlmsgHdr == old(mNlmsgHdr) && mNested == old(mNested)
        invariant more == State().HasAttribute()
        invariant ReadAttributes(old(State()), wanted) == After(read, ReadAttributes(State(), wanted))
        decreases |mNlmsg| - mPosition
      {
        var t := Get16(mNlmsg, mPosition + 2);
        var len := Get16(mNlmsg, mPosition) - RTA_HDRLEN;
        if t in wanted {
          var got := FetchData(t, len);
          if got.Thrown? {
            AfterLast(read);
            return Thrown(got.error);
          }
          AfterOne(read, (t, got.value), ReadAttributes(State(), wanted));
          read := read + [(t, got.value)];
        } else {
          var skipped := SkipAttribute();
          if skipped.Thrown? {
            AfterLast(read);
            return Thrown(skipped.error);
          }
        }
        more := HasAttribute();
      }
      AfterLast(read);
      return Ok(read);
    }
  }
}
