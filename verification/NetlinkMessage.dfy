/**
 * The netlink message builder (common/netlink/netlink-message.cpp) and the
 * attribute tree it writes.
 */
module NetlinkMessages {
  import opened Bytes

  const HDRLEN: nat := 16       // NLMSG_HDRLEN
  const RTA_HDRLEN: nat := 4    // RTA_LENGTH(0)
  const INT_MAX_PLUS_1 := 0x8000_0000
  const NLM_F_ACK: bv16 := 4

  /** What a message carries after its header. */
  datatype Node =
    | Raw(data: seq<Byte>)
    | Leaf(typ: int, data: seq<Byte>)
    | Nest(typ: int, kids: seq<Node>)

  /** The wire format: RFC 3549, section 2.3.2 gives the attribute layout. */
  function Encode(n: Node): seq<Byte> {
    match n
    case Raw(d) => d
    case Leaf(t, d) => AttrHeader(RTA_HDRLEN + |d|, t) + d + Zeros(Align4(|d|) - |d|)
    case Nest(t, kids) => var body := EncodeAll(kids); AttrHeader(RTA_HDRLEN + |body|, t) + body
  }

  function EncodeAll(ns: seq<Node>): seq<Byte> {
    if ns == [] then [] else Encode(ns[0]) + EncodeAll(ns[1..])
  }

  function AttrHeader(len: int, typ: int): (s: seq<Byte>)
    ensures |s| == RTA_HDRLEN
  {
    Put16(len) + Put16(typ)
  }

  /** Raw templates are whole words; types and attribute lengths fit their 16 bits. */
  predicate Fits(n: Node) {
    match n
    case Raw(d) => |d| % 4 == 0
    case Leaf(t, d) => 0 <= t < 0x1_0000 && RTA_HDRLEN + |d| < 0x1_0000
    case Nest(t, kids) =>
      0 <= t < 0x1_0000 && AllFit(kids) && RTA_HDRLEN + |EncodeAll(kids)| < 0x1_0000
  }

  predicate AllFit(ns: seq<Node>) {
    forall n :: n in ns ==> Fits(n)
  }

  lemma {:induction false} EncodeAllAppend(a: seq<Node>, b: seq<Node>)
    ensures EncodeAll(a + b) == EncodeAll(a) + EncodeAll(b)
  {
    if a == [] {
      assert a + b == b;
    } else {
      assert (a + b)[0] == a[0] && (a + b)[1..] == a[1..] + b;
      EncodeAllAppend(a[1..], b);
    }
  }

  lemma {:induction false} EncodeAllAligned(ns: seq<Node>)
    requires AllFit(ns)
    ensures |EncodeAll(ns)| % 4 == 0
    decreases ns
  {
    if ns != [] {
      EncodeAligned(ns[0]);
      EncodeAllAligned(ns[1..]);
      SumAligned(|Encode(ns[0])|, |EncodeAll(ns[1..])|);
    }
  }

  lemma {:induction false} EncodeAligned(n: Node)
    requires Fits(n)
    ensures |Encode(n)| % 4 == 0
    decreases n
  {
    hide EncodeAll, AttrHeader;
    match n {
      case Raw(_) =>
      case Leaf(t, d) =>
        assert |Encode(n)| == RTA_HDRLEN + Align4(|d|);
        SumAligned(RTA_HDRLEN, Align4(|d|));
      case Nest(t, kids) =>
        EncodeAllAligned(kids);
        assert |Encode(n)| == RTA_HDRLEN + |EncodeAll(kids)|;
        SumAligned(RTA_HDRLEN, |EncodeAll(kids)|);
    }
  }

  lemma SumAligned(a: int, b: int)
    requires a % 4 == 0 && b % 4 == 0
    ensures (a + b) % 4 == 0 && (a + RTA_HDRLEN + b) % 4 == 0
  {
  }

  // ---------------------------------------------------------------- builder calls

  datatype Op =
    | PutRaw(raw: seq<Byte>)
    | PutAttr(ifla: int, payload: seq<Byte>)
    | Begin(nest: int)
    | End

  /** The builder's state: header fields after nlmsg_len, bytes after the header, open nests. */
  datatype Builder = Builder(fields: seq<Byte>, body: seq<Byte>, nested: seq<nat>)

  /** The bytes of mNlmsg. */
  function Buffer(b: Builder): seq<Byte> {
    Put32(HDRLEN + |b.body|) + b.fields + b.body
  }

  predicate Sound(b: Builder) {
    && |b.fields| == HDRLEN - 4
    && HDRLEN + |b.body| < INT_MAX_PLUS_1
    && forall o :: o in b.nested ==> HDRLEN <= o && o + RTA_HDRLEN <= HDRLEN + |b.body|
  }

  /** The message after the call, as long as its length is an int. */
  function SizeAfter(b: Builder, op: Op): int {
    match op
    case PutRaw(d) => HDRLEN + |b.body| + |d|
    case PutAttr(_, d) => HDRLEN + Align4(|b.body|) + Align4(RTA_HDRLEN + |d|)
    case Begin(_) => HDRLEN + Align4(|b.body|) + RTA_HDRLEN
    case End => HDRLEN + |b.body|
  }

  predicate CanStep(b: Builder, op: Op) {
    Sound(b) && SizeAfter(b, op) < INT_MAX_PLUS_1 && (op.End? ==> b.nested != [])
  }

  function Step(b: Builder, op: Op): (r: Builder)
    requires CanStep(b, op)
    ensures Sound(r) && HDRLEN + |r.body| == SizeAfter(b, op)
  {
    match op
    case PutRaw(d) => b.(body := b.body + d)
    case PutAttr(t, d) =>
      b.(body := Padded(b.body) + AttrHeader(RTA_HDRLEN + |d|, t) + d + Zeros(Align4(|d|) - |d|))
    case Begin(t) =>
      b.(body := Padded(b.body) + AttrHeader(RTA_HDRLEN, t), nested := b.nested + [HDRLEN + Align4(|b.body|)])
    case End => b.(body := Patched(b.body, Last(b.nested) - HDRLEN), nested := Front(b.nested))
  }

  /** The attribute at `at` gets the distance to the end as its length. */
  function Patched(body: seq<Byte>, at: nat): (r: seq<Byte>)
    requires at + RTA_HDRLEN <= |body|
    ensures |r| == |body|
  {
    Splice(body, at, Put16(Align4(|body|) - at))
  }

  function Padded(s: seq<Byte>): seq<Byte> {
    s + Zeros(Align4(|s|) - |s|)
  }

  function Last<T>(s: seq<T>): (x: T)
    requires s != []
    ensures x in s
  {
    s[|s| - 1]
  }

  function Front<T>(s: seq<T>): (r: seq<T>)
    requires s != []
    ensures |r| == |s| - 1 && forall x :: x in r ==> x in s
  {
    s[..|s| - 1]
  }

  // ---------------------------------------------------------------- the tree being written

  /** A nest that beginNested inner and endNested has not closed yet. */
  datatype Frame = Frame(typ: int, kids: seq<Node>)

  /** Top-level nodes so far, then the open nests, outermost first. */
  datatype Partial = Partial(root: seq<Node>, open: seq<Frame>)

  function Append(p: Partial, n: Node): Partial {
    if p.open == [] then p.(root := p.root + [n])
    else p.(open := Front(p.open) + [Frame(Last(p.open).typ, Last(p.open).kids + [n])])
  }

  function Grow(p: Partial, op: Op): Partial
    requires op.End? ==> p.open != []
  {
    match op
    case PutRaw(d) => Append(p, Raw(d))
    case PutAttr(t, d) => Append(p, Leaf(t, d))
    case Begin(t) => p.(open := p.open + [Frame(t, [])])
    case End => Append(p.(open := Front(p.open)), Nest(Last(p.open).typ, Last(p.open).kids))
  }

  /** The node an operation completes fits the wire format. */
  predicate GrowFits(p: Partial, op: Op) {
    match op
    case PutRaw(d) => Fits(Raw(d))
    case PutAttr(t, d) => Fits(Leaf(t, d))
    case Begin(t) => 0 <= t < 0x1_0000
    case End => p.open != [] && Fits(Nest(Last(p.open).typ, Last(p.open).kids))
  }

  /** Bytes written so far: an open nest carries the placeholder length of an empty one. */
  function Text(root: seq<Node>, open: seq<Frame>): seq<Byte> {
    if open == [] then EncodeAll(root)
    else Text(root, Front(open)) + AttrHeader(RTA_HDRLEN, Last(open).typ) + EncodeAll(Last(open).kids)
  }

  function Offsets(root: seq<Node>, open: seq<Frame>): seq<nat> {
    if open == [] then []
    else Offsets(root, Front(open)) + [HDRLEN + |Text(root, Front(open))|]
  }

  predicate PartialFits(p: Partial) {
    AllFit(p.root) && forall f :: f in p.open ==> AllFit(f.kids)
  }

  /** The builder holds exactly this partial tree. */
  predicate Holds(b: Builder, p: Partial) {
    b.body == Text(p.root, p.open) && b.nested == Offsets(p.root, p.open) && PartialFits(p)
  }

  lemma {:induction false} TextAligned(root: seq<Node>, open: seq<Frame>)
    requires PartialFits(Partial(root, open))
    ensures |Text(root, open)| % 4 == 0
  {
    hide EncodeAll, Fits, AttrHeader;
    if open == [] {
      EncodeAllAligned(root);
    } else {
      TextAligned(root, Front(open));
      EncodeAllAligned(Last(open).kids);
      var before, kids := Text(root, Front(open)), EncodeAll(Last(open).kids);
      assert |Text(root, open)| == |before| + RTA_HDRLEN + |kids|;
      SumAligned(|before|, |kids|);
    }
  }

  lemma EncodeOne(n: Node)
    ensures EncodeAll([n]) == Encode(n)
  {
    hide Encode;
    assert EncodeAll([n][1..]) == [];
    assert EncodeAll([n]) == Encode(n) + [];
  }

  lemma AppendText(p: Partial, n: Node)
    ensures Text(Append(p, n).root, Append(p, n).open) == Text(p.root, p.open) + Encode(n)
    ensures Offsets(Append(p, n).root, Append(p, n).open) == Offsets(p.root, p.open)
  {
    hide EncodeAll, Encode, AttrHeader;
    EncodeOne(n);
    if p.open == [] {
      EncodeAllAppend(p.root, [n]);
    } else {
      EncodeAllAppend(Last(p.open).kids, [n]);
      assert Front(Append(p, n).open) == Front(p.open);
    }
  }

  lemma AppendFits(p: Partial, n: Node)
    requires PartialFits(p) && Fits(n)
    ensures PartialFits(Append(p, n))
  {
  }

  /** One call on the bytes is one call on the tree. */
  lemma {:induction false} StepHolds(b: Builder, p: Partial, op: Op)
    requires Holds(b, p) && CanStep(b, op) && GrowFits(p, op)
    ensures Holds(Step(b, op), Grow(p, op))
  {
    match op {
      case PutRaw(d) => AppendHolds(b, p, Raw(d), Step(b, op));
      case PutAttr(t, d) =>
        TailAligned(b, p);
        assert Step(b, op).body == b.body + Encode(Leaf(t, d));
        AppendHolds(b, p, Leaf(t, d), Step(b, op));
      case Begin(t) => OpenHolds(b, p, t);
      case End => CloseHolds(b, p);
    }
  }

  lemma {:induction false} AppendHolds(b: Builder, p: Partial, n: Node, next: Builder)
    requires Holds(b, p) && Fits(n)
    requires next.body == b.body + Encode(n) && next.nested == b.nested
    ensures Holds(next, Append(p, n))
  {
    AppendText(p, n);
    AppendFits(p, n);
  }

  lemma OpenHolds(b: Builder, p: Partial, t: int)
    requires Holds(b, p) && CanStep(b, Begin(t))
    ensures Holds(Step(b, Begin(t)), Grow(p, Begin(t)))
  {
    TailAligned(b, p);
    var inner := p.open + [Frame(t, [])];
    assert Front(inner) == p.open && Last(inner) == Frame(t, []);
    assert Text(p.root, inner) == Text(p.root, p.open) + AttrHeader(RTA_HDRLEN, t) + [];
  }

  lemma TailAligned(b: Builder, p: Partial)
    requires Holds(b, p)
    ensures Align4(|b.body|) == |b.body| && Padded(b.body) == b.body
  {
    TextAligned(p.root, p.open);
    AlignedStays(|b.body|);
  }

  /** endNested turns the placeholder into the length of the finished nest. */
  lemma {:induction false} CloseHolds(b: Builder, p: Partial)
    requires Holds(b, p) && CanStep(b, End) && GrowFits(p, End)
    ensures Holds(Step(b, End), Grow(p, End))
  {
    var last, outer := Last(p.open), Partial(p.root, Front(p.open));
    var before, kids := Text(outer.root, outer.open), EncodeAll(last.kids);
    assert Step(b, End).body == before + Encode(Nest(last.typ, last.kids)) by {
      TailAligned(b, p);
      NestPatched(before, last.typ, last.kids);
    }
    AppendText(outer, Nest(last.typ, last.kids));
    AppendFits(outer, Nest(last.typ, last.kids));
  }

  lemma NestPatched(before: seq<Byte>, t: int, kids: seq<Node>)
    ensures Splice(before + AttrHeader(RTA_HDRLEN, t) + EncodeAll(kids), |before|, Put16(RTA_HDRLEN + |EncodeAll(kids)|))
         == before + Encode(Nest(t, kids))
  {
    hide Splice, At, EncodeAll, Put16;
    var body := EncodeAll(kids);
    var rest := Put16(t) + body;
    assert before + AttrHeader(RTA_HDRLEN, t) + body == before + Put16(RTA_HDRLEN) + rest;
    SpliceMiddle(before, Put16(RTA_HDRLEN), rest, Put16(RTA_HDRLEN + |body|));
    assert Encode(Nest(t, kids)) == Put16(RTA_HDRLEN + |body|) + rest;
  }

  // ---------------------------------------------------------------- whole runs

  /** No endNested without a nest, and every completed node fits. */
  predicate Allowed(p: Partial, ops: seq<Op>)
    decreases ops
  {
    ops == [] || (GrowFits(p, ops[0]) && Allowed(Grow(p, ops[0]), ops[1..]))
  }

  function GrowAll(p: Partial, ops: seq<Op>): Partial
    requires Allowed(p, ops)
    decreases ops
  {
    if ops == [] then p else GrowAll(Grow(p, ops[0]), ops[1..])
  }

  /** Every intermediate message length is an int. */
  predicate CanRun(b: Builder, ops: seq<Op>)
    decreases ops
  {
    ops == [] || (CanStep(b, ops[0]) && CanRun(Step(b, ops[0]), ops[1..]))
  }

  function Run(b: Builder, ops: seq<Op>): Builder
    requires CanRun(b, ops)
    decreases ops
  {
    if ops == [] then b else Run(Step(b, ops[0]), ops[1..])
  }

  lemma {:induction false} RunHolds(b: Builder, p: Partial, ops: seq<Op>)
    requires Holds(b, p) && CanRun(b, ops) && Allowed(p, ops)
    ensures Holds(Run(b, ops), GrowAll(p, ops))
    decreases ops
  {
    if ops != [] {
      StepHolds(b, p, ops[0]);
      RunHolds(Step(b, ops[0]), Grow(p, ops[0]), ops[1..]);
    }
  }

  /**
   * For every balanced sequence of calls the buffer is the header followed by
   * the recursive encoding of the tree, and nlmsg_len is the buffer's size.
   */
  lemma BalancedRunEncodes(fields: seq<Byte>, ops: seq<Op>)
    requires |fields| == HDRLEN - 4
    requires CanRun(Builder(fields, [], []), ops) && Allowed(Partial([], []), ops)
    requires GrowAll(Partial([], []), ops).open == []
    ensures var tree := GrowAll(Partial([], []), ops).root;
            var b := Run(Builder(fields, [], []), ops);
            && b.nested == [] && AllFit(tree)
            && Buffer(b) == Put32(HDRLEN + |EncodeAll(tree)|) + fields + EncodeAll(tree)
            && Get32(Buffer(b), 0) == |Buffer(b)|
  {
    RunHolds(Builder(fields, [], []), Partial([], []), ops);
    var b := Run(Builder(fields, [], []), ops);
    RunSound(Builder(fields, [], []), ops);
    BufferLength(b);
  }

  lemma {:induction false} RunSound(b: Builder, ops: seq<Op>)
    requires Sound(b) && CanRun(b, ops)
    ensures Sound(Run(b, ops)) && Run(b, ops).fields == b.fields
    decreases ops
  {
    if ops != [] { RunSound(Step(b, ops[0]), ops[1..]); }
  }

  /** nlmsg_len, read back from the buffer, is the size of the buffer. */
  lemma BufferLength(b: Builder)
    requires Sound(b)
    ensures |Buffer(b)| == HDRLEN + |b.body| && Get32(Buffer(b), 0) == |Buffer(b)|
  {
    assert At(Buffer(b), 0, Put32(HDRLEN + |b.body|));
    Stored32(Buffer(b), 0, HDRLEN + |b.body|);
  }

  /** The calls that write a given tree. */
  function Calls(n: Node): seq<Op> {
    match n
    case Raw(d) => [PutRaw(d)]
    case Leaf(t, d) => [PutAttr(t, d)]
    case Nest(t, kids) => [Begin(t)] + CallsAll(kids) + [End]
  }

  function CallsAll(ns: seq<Node>): seq<Op> {
    if ns == [] then [] else Calls(ns[0]) + CallsAll(ns[1..])
  }

  function AppendAll(p: Partial, ns: seq<Node>): Partial
    decreases ns
  {
    if ns == [] then p else AppendAll(Append(p, ns[0]), ns[1..])
  }

  lemma {:induction false} GrowSplit(p: Partial, a: seq<Op>, b: seq<Op>)
    ensures Allowed(p, a + b) <==> Allowed(p, a) && Allowed(GrowAll(p, a), b)
    ensures Allowed(p, a + b) ==> GrowAll(p, a + b) == GrowAll(GrowAll(p, a), b)
    decreases a
  {
    if a == [] {
      assert a + b == b;
    } else {
      assert (a + b)[0] == a[0] && (a + b)[1..] == a[1..] + b;
      if GrowFits(p, a[0]) { GrowSplit(Grow(p, a[0]), a[1..], b); }
    }
  }

  /** Every tree that fits is written by its calls, wherever they are made. */
  lemma {:induction false} CallsGrow(p: Partial, ns: seq<Node>)
    requires AllFit(ns)
    ensures Allowed(p, CallsAll(ns)) && GrowAll(p, CallsAll(ns)) == AppendAll(p, ns)
    decreases ns
  {
    if ns != [] {
      var n, rest := ns[0], ns[1..];
      assert Fits(n);
      CallGrows(p, n);
      CallsGrow(Append(p, n), rest);
      GrowSplit(p, Calls(n), CallsAll(rest));
    }
  }

  lemma {:induction false} CallGrows(p: Partial, n: Node)
    requires Fits(n)
    ensures Allowed(p, Calls(n)) && GrowAll(p, Calls(n)) == Append(p, n)
    decreases n
  {
    match n {
      case Raw(_) =>
      case Leaf(_, _) =>
      case Nest(t, kids) =>
        var inner := Grow(p, Begin(t));
        CallsGrow(inner, kids);
        AppendInside(p, Frame(t, []), kids);
        var filled := AppendAll(inner, kids);
        assert [] + kids == kids;
        assert Front(filled.open) == p.open;
        assert [Begin(t)][1..] == [] && [End][1..] == [];
        GrowSplit(inner, CallsAll(kids), [End]);
        var tail := CallsAll(kids) + [End];
        assert Calls(n) == [Begin(t)] + tail;
        assert ([Begin(t)] + tail)[1..] == tail;
    }
  }

  lemma {:induction false} AppendInside(p: Partial, f: Frame, ns: seq<Node>)
    ensures AppendAll(p.(open := p.open + [f]), ns) == p.(open := p.open + [f.(kids := f.kids + ns)])
    decreases ns
  {
    if ns == [] {
      assert f.kids + ns == f.kids;
    } else {
      var q := p.(open := p.open + [f]);
      assert Front(q.open) == p.open;
      AppendInside(p, Frame(f.typ, f.kids + [ns[0]]), ns[1..]);
      assert f.kids + [ns[0]] + ns[1..] == f.kids + ns;
    }
  }

  lemma {:induction false} AppendAtRoot(root: seq<Node>, ns: seq<Node>)
    ensures AppendAll(Partial(root, []), ns) == Partial(root + ns, [])
    decreases ns
  {
    if ns == [] {
      assert root + ns == root;
    } else {
      AppendAtRoot(root + [ns[0]], ns[1..]);
      assert root + [ns[0]] + ns[1..] == root + ns;
    }
  }

  lemma {:induction false} RunSplit(b: Builder, x: seq<Op>, y: seq<Op>)
    requires CanRun(b, x) && CanRun(Run(b, x), y)
    ensures CanRun(b, x + y) && Run(b, x + y) == Run(Run(b, x), y)
    decreases x
  {
    if x == [] {
      assert x + y == y;
    } else {
      assert (x + y)[0] == x[0] && (x + y)[1..] == x[1..] + y;
      RunSplit(Step(b, x[0]), x[1..], y);
    }
  }

  /** A builder between two nodes: whole words so far, and room for `more` bytes. */
  predicate Room(b: Builder, more: nat) {
    Sound(b) && |b.body| % 4 == 0 && HDRLEN + |b.body| + more < INT_MAX_PLUS_1
  }

  /** The calls of a tree run whenever the finished message has an int length. */
  lemma {:induction false} CallsRun(b: Builder, ns: seq<Node>)
    requires AllFit(ns) && Room(b, |EncodeAll(ns)|)
    ensures CanRun(b, CallsAll(ns))
    ensures var r := Run(b, CallsAll(ns)); Room(r, 0) && |r.body| == |b.body| + |EncodeAll(ns)| && r.nested == b.nested
    decreases ns
  {
    if ns != [] {
      var n, rest := ns[0], ns[1..];
      assert Fits(n);
      CallRuns(b, n);
      CallsRun(Run(b, Calls(n)), rest);
      RunSplit(b, Calls(n), CallsAll(rest));
    }
  }

  lemma {:induction false} CallRuns(b: Builder, n: Node)
    requires Fits(n) && Room(b, |Encode(n)|)
    ensures CanRun(b, Calls(n))
    ensures var r := Run(b, Calls(n)); Room(r, 0) && |r.body| == |b.body| + |Encode(n)| && r.nested == b.nested
    decreases n
  {
    hide Align4, Put16, EncodeAll, CallsAll, Run, CanRun, AttrHeader, Patched;
    AlignedStays(|b.body|);
    EncodeAligned(n);
    match n {
      case Raw(d) => OneRuns(b, PutRaw(d));
      case Leaf(t, d) =>
        AlignShift(1, |d|);
        OneRuns(b, PutAttr(t, d));
      case Nest(t, kids) =>
        OneRuns(b, Begin(t));
        var inner := Step(b, Begin(t));
        CallsRun(inner, kids);
        var full := Run(inner, CallsAll(kids));
        OneRuns(full, End);
        RunSplit(inner, CallsAll(kids), [End]);
        RunSplit(b, [Begin(t)], CallsAll(kids) + [End]);
        assert Calls(n) == [Begin(t)] + (CallsAll(kids) + [End]);
        assert Front(full.nested) == b.nested;
    }
  }

  lemma OneRuns(b: Builder, op: Op)
    requires CanStep(b, op)
    ensures CanRun(b, [op]) && Run(b, [op]) == Step(b, op)
  {
    assert [op][1..] == [];
  }

  /**
   * Every tree whose nodes fit and whose message has an int length is written
   * by its calls, leaving exactly the header and the tree's encoding.
   */
  lemma EveryTreeIsWritten(fields: seq<Byte>, tree: seq<Node>)
    requires |fields| == HDRLEN - 4 && AllFit(tree)
    requires HDRLEN + |EncodeAll(tree)| < INT_MAX_PLUS_1
    ensures CanRun(Builder(fields, [], []), CallsAll(tree))
    ensures var b := Run(Builder(fields, [], []), CallsAll(tree));
            b.nested == [] && Buffer(b) == Put32(HDRLEN + |EncodeAll(tree)|) + fields + EncodeAll(tree)
  {
    CallsRun(Builder(fields, [], []), tree);
    CallsGrow(Partial([], []), tree);
    AppendAtRoot([], tree);
    assert [] + tree == tree;
    BalancedRunEncodes(fields, CallsAll(tree));
  }

  /** The 16-bit length field tells the truth exactly for payloads under 65532 bytes. */
  lemma LengthFieldExact(t: int, d: seq<Byte>)
    ensures Get16(Encode(Leaf(t, d)), 0) == RTA_HDRLEN + |d| <==> |d| < 0xFFFC
  {
    var s := Encode(Leaf(t, d));
    assert At(s, 0, Put16(RTA_HDRLEN + |d|));
    Stored16(s, 0, RTA_HDRLEN + |d|);
  }

  /** So does the length patched in by endNested, for contents under 65532 bytes. */
  lemma NestLengthExact(t: int, kids: seq<Node>)
    ensures Get16(Encode(Nest(t, kids)), 0) == RTA_HDRLEN + |EncodeAll(kids)| <==> |EncodeAll(kids)| < 0xFFFC
  {
    var s := Encode(Nest(t, kids));
    assert At(s, 0, Put16(RTA_HDRLEN + |EncodeAll(kids)|));
    Stored16(s, 0, RTA_HDRLEN + |EncodeAll(kids)|);
  }

  // ---------------------------------------------------------------- the writes of one call

  /** The buffer after setMinCapacity, as put(ifla, data, len) grows it. */
  function Grown(b: Builder, d: seq<Byte>): seq<Byte> {
    Buffer(b) + Zeros(Align4(|b.body|) - |b.body|) + Zeros(Align4(RTA_HDRLEN + |d|))
  }

  /** The stores of put(ifla, data, len) in its order: type, length, payload ... */
  lemma {:induction false} AttrFilled(b: Builder, t: int, d: seq<Byte>, tail: nat, typed: seq<Byte>, sized: seq<Byte>, filled: seq<Byte>)
    requires tail == HDRLEN + Align4(|b.body|) && |b.fields| == HDRLEN - 4
    requires tail + RTA_HDRLEN + |d| <= |Grown(b, d)|
    requires typed == Splice(Grown(b, d), tail + 2, Put16(t))
    requires sized == Splice(typed, tail, Put16(RTA_HDRLEN + |d|))
    requires filled == Splice(sized, tail + 4, d)
    ensures filled == Buffer(b) + Zeros(Align4(|b.body|) - |b.body|)
                      + AttrHeader(RTA_HDRLEN + |d|, t) + d + Zeros(Align4(|d|) - |d|)
  {
    hide Put16, Align4, Splice, At;
    var pre := Buffer(b) + Zeros(Align4(|b.body|) - |b.body|);
    assert |pre| == tail;
    assert Align4(RTA_HDRLEN + |d|) == RTA_HDRLEN + Align4(|d|) by { AlignShift(1, |d|); }
    FillZeros(pre, Put16(RTA_HDRLEN + |d|), Put16(t), d, Align4(|d|) - |d|, Grown(b, d));
  }

  /** ... and nlmsg_len last. */
  lemma AttrWrites(b: Builder, t: int, d: seq<Byte>, filled: seq<Byte>)
    requires CanStep(b, PutAttr(t, d))
    requires filled == Buffer(b) + Zeros(Align4(|b.body|) - |b.body|)
                       + AttrHeader(RTA_HDRLEN + |d|, t) + d + Zeros(Align4(|d|) - |d|)
    ensures Splice(filled, 0, Put32(SizeAfter(b, PutAttr(t, d)))) == Buffer(Step(b, PutAttr(t, d)))
  {
    hide Splice, At, AttrHeader, Put32;
    var body := Step(b, PutAttr(t, d)).body;
    assert filled == [] + Put32(HDRLEN + |b.body|) + (b.fields + body);
    SpliceMiddle([], Put32(HDRLEN + |b.body|), b.fields + body, Put32(HDRLEN + |body|));
  }

  lemma RawWrites(b: Builder, d: seq<Byte>)
    requires CanStep(b, PutRaw(d))
    ensures var n := |Buffer(b)|;
            Splice(Splice(Buffer(b) + Zeros(|d|), n, d), 0, Put32(n + |d|)) == Buffer(Step(b, PutRaw(d)))
  {
    var len := Put32(HDRLEN + |b.body|);
    assert Buffer(b) + Zeros(|d|) == Buffer(b) + Zeros(|d|) + [];
    SpliceMiddle(Buffer(b), Zeros(|d|), [], d);
    assert Buffer(b) + d + [] == [] + len + (b.fields + (b.body + d));
    SpliceMiddle([], len, b.fields + (b.body + d), Put32(HDRLEN + |b.body| + |d|));
  }

  lemma EndWrites(b: Builder)
    requires CanStep(b, End)
    ensures var nest := Last(b.nested);
            nest + 2 <= |Buffer(b)| && Splice(Buffer(b), nest, Put16(HDRLEN + Align4(|b.body|) - nest)) == Buffer(Step(b, End))
  {
    hide Splice, At, Put32, Put16;
    var nest := Last(b.nested);
    var at := nest - HDRLEN;
    var len := Put16(Align4(|b.body|) - at);
    var pre := Put32(HDRLEN + |b.body|) + b.fields;
    assert b.body == b.body[..at] + b.body[at..at + 2] + b.body[at + 2..];
    SpliceMiddle(b.body[..at], b.body[at..at + 2], b.body[at + 2..], len);
    assert Buffer(b) == (pre + b.body[..at]) + b.body[at..at + 2] + b.body[at + 2..];
    SpliceMiddle(pre + b.body[..at], b.body[at..at + 2], b.body[at + 2..], len);
  }

  /** The stores of the constructor in their order: length, flags, type, counter, pid. */
  lemma HeaderFilled(len: seq<Byte>, t: seq<Byte>, f: seq<Byte>, c: seq<Byte>, p: seq<Byte>)
    requires |len| == |c| == |p| == 4 && |t| == |f| == 2
    ensures Splice(Splice(Splice(Splice(Splice(Zeros(HDRLEN), 0, len), 6, f), 4, t), 8, c), 12, p) == len + t + f + c + p
  {
    hide Splice, At;
    assert Zeros(HDRLEN) == [] + Zeros(4) + Zeros(12);
    SpliceMiddle([], Zeros(4), Zeros(12), len);
    assert [] + len + Zeros(12) == (len + Zeros(2)) + Zeros(2) + Zeros(8);
    SpliceMiddle(len + Zeros(2), Zeros(2), Zeros(8), f);
    assert len + Zeros(2) + f + Zeros(8) == len + Zeros(2) + (f + Zeros(8));
    SpliceMiddle(len, Zeros(2), f + Zeros(8), t);
    assert len + t + (f + Zeros(8)) == (len + t + f) + Zeros(4) + Zeros(4);
    SpliceMiddle(len + t + f, Zeros(4), Zeros(4), c);
    assert len + t + f + c + Zeros(4) == (len + t + f + c) + Zeros(4) + [];
    SpliceMiddle(len + t + f + c, Zeros(4), [], p);
    assert len + t + f + c + p + [] == len + t + f + c + p;
  }

  // ---------------------------------------------------------------- the class

  class NetlinkMessage {
    var mNlmsg: seq<Byte>
    var mNested: seq<nat>

    ghost predicate Valid()
      reads this
    {
      |mNlmsg| >= HDRLEN && mNlmsg == Buffer(State()) && Sound(State())
    }

    ghost function State(): (b: Builder)
      requires |mNlmsg| >= HDRLEN
      reads this
    {
      Builder(mNlmsg[4..HDRLEN], mNlmsg[HDRLEN..], mNested)
    }

    /** `counter` is the value of the process-wide counter, `pid` that of getpid(). */
    constructor (typ: int, flags: bv16, counter: int, pid: int)
      ensures Valid() && mNested == [] && |mNlmsg| == HDRLEN
      ensures State().fields
           == Put16(typ) + Put16((flags | 4) as int) + Put32(counter) + Put32(pid)
    {
      hide Splice, At;
      HeaderFilled(Put32(HDRLEN), Put16(typ), Put16((flags | NLM_F_ACK) as int), Put32(counter), Put32(pid));
      var b := Splice(Zeros(HDRLEN), 0, Put32(HDRLEN));
      b := Splice(b, 6, Put16((flags | NLM_F_ACK) as int));
      b := Splice(b, 4, Put16(typ));
      b := Splice(b, 8, Put32(counter));
      b := Splice(b, 12, Put32(pid));
      mNlmsg := b;
      mNested := [];
    }

    function NlmsgLen(): (n: nat)
      requires |mNlmsg| >= HDRLEN
      reads this
    {
      Get32(mNlmsg, 0)
    }

    lemma LenIsSize()
      requires Valid()
      ensures NlmsgLen() == |mNlmsg| == HDRLEN + |State().body| < INT_MAX_PLUS_1
    {
      BufferLength(State());
    }

    /** What the buffer is fixes the abstract state. */
    lemma Refold(b: Builder)
      requires Sound(b) && mNlmsg == Buffer(b) && mNested == b.nested
      ensures Valid() && State() == b
    {
      var len := Put32(HDRLEN + |b.body|);
      assert mNlmsg[4..HDRLEN] == b.fields;
      assert mNlmsg[HDRLEN..] == b.body;
    }

    method SetMinCapacity(size: nat)
      requires |mNlmsg| >= HDRLEN
      modifies this`mNlmsg
      ensures mNlmsg == if |old(mNlmsg)| < size then old(mNlmsg) + Zeros(size - |old(mNlmsg)|)
                        else old(mNlmsg)
    {
      if |mNlmsg| < size {
        mNlmsg := mNlmsg + Zeros(size - |mNlmsg|);
      }
    }

    method PutAttribute(ifla: int, data: seq<Byte>)
      requires Valid() && SizeAfter(State(), PutAttr(ifla, data)) < INT_MAX_PLUS_1
      modifies this`mNlmsg
      ensures Valid() && State() == Step(old(State()), PutAttr(ifla, data))
    {
      LenIsSize();
      ghost var was := State();
      AlignShift(4, |was.body|);
      var rtalen := RTA_HDRLEN + |data|;
      var tail := Align4(NlmsgLen());
      var newLen := tail + Align4(rtalen);
      SetMinCapacity(newLen);
      assert mNlmsg == Grown(was, data);
      mNlmsg := Splice(mNlmsg, tail + 2, Put16(ifla));
      ghost var typed := mNlmsg;
      mNlmsg := Splice(mNlmsg, tail, Put16(rtalen));
      ghost var sized := mNlmsg;
      mNlmsg := Splice(mNlmsg, tail + 4, data);
      AttrFilled(was, ifla, data, tail, typed, sized, mNlmsg);
      AttrWrites(was, ifla, data, mNlmsg);
      mNlmsg := Splice(mNlmsg, 0, Put32(newLen));
      Refold(Step(was, PutAttr(ifla, data)));
    }

    method PutString(ifla: int, value: seq<Byte>)
      requires Valid() && SizeAfter(State(), PutAttr(ifla, value + [0])) < INT_MAX_PLUS_1
      modifies this`mNlmsg
      ensures Valid() && State() == Step(old(State()), PutAttr(ifla, value + [0]))
    {
      PutAttribute(ifla, value + [0]);
    }

    method PutTemplate(data: seq<Byte>)
      requires Valid() && SizeAfter(State(), PutRaw(data)) < INT_MAX_PLUS_1
      modifies this`mNlmsg
      ensures Valid() && State() == Step(old(State()), PutRaw(data))
    {
      LenIsSize();
      ghost var was := State();
      RawWrites(was, data);
      var end := NlmsgLen();
      SetMinCapacity(end + |data|);
      assert mNlmsg == Buffer(was) + Zeros(|data|);
      mNlmsg := Splice(mNlmsg, end, data);
      mNlmsg := Splice(mNlmsg, 0, Put32(end + |data|));
      Refold(Step(was, PutRaw(data)));
    }

    method BeginNested(ifla: int)
      requires Valid() && SizeAfter(State(), Begin(ifla)) < INT_MAX_PLUS_1
      modifies this
      ensures Valid() && State() == Step(old(State()), Begin(ifla))
    {
      LenIsSize();
      ghost var was := State();
      AlignShift(4, |was.body|);
      var offset := Align4(NlmsgLen());
      PutAttribute(ifla, []);
      mNested := mNested + [offset];
      ghost var b := Step(was, Begin(ifla));
      assert b.body == Step(was, PutAttr(ifla, [])).body;
      Refold(b);
    }

    method EndNested()
      requires Valid() && mNested != []
      modifies this
      ensures Valid() && State() == Step(old(State()), End)
    {
      LenIsSize();
      ghost var was := State();
      EndWrites(was);
      var nest := Last(mNested);
      AlignShift(4, |was.body|);
      mNlmsg := Splice(mNlmsg, nest, Put16(Align4(NlmsgLen()) - nest));
      mNested := Front(mNested);
      Refold(Step(was, End));
    }
  }
}
