/** Bytes, fixed-width fields and 4-byte alignment, as the netlink buffers use them. */
module Bytes {

  type Byte = b: int | 0 <= b < 256

  /** NLMSG_ALIGN and RTA_ALIGN: round up to a multiple of four. */
  function Align4(n: int): (r: int)
    ensures n <= r < n + 4 && r % 4 == 0
  {
    (n + 3) / 4 * 4
  }

  function Zeros(n: nat): (s: seq<Byte>)
    ensures |s| == n && forall k :: 0 <= k < n ==> s[k] == 0
  {
    seq(n, _ => 0)
  }

  /** A 16-bit store: whatever does not fit in 16 bits is dropped. */
  function Put16(v: int): (s: seq<Byte>)
    ensures |s| == 2
  {
    [v % 0x100, v / 0x100 % 0x100]
  }

  function Get16(s: seq<Byte>, at: nat): (v: nat)
    requires at + 2 <= |s|
    ensures v < 0x1_0000
  {
    s[at] as int + 0x100 * s[at + 1] as int
  }

  /** A 32-bit store, as two 16-bit halves. */
  function Put32(v: int): (s: seq<Byte>)
    ensures |s| == 4
  {
    Put16(v) + Put16(v / 0x1_0000)
  }

  function Get32(s: seq<Byte>, at: nat): (v: nat)
    requires at + 4 <= |s|
    ensures v < 0x1_0000_0000
  {
    Get16(s, at) + 0x1_0000 * Get16(s, at + 2)
  }

  /** `part` occupies the buffer from `at` on. */
  predicate At(s: seq<Byte>, at: nat, part: seq<Byte>) {
    at + |part| <= |s| && s[at..at + |part|] == part
  }

  /** memcpy into the buffer. */
  function Splice(s: seq<Byte>, at: nat, part: seq<Byte>): (r: seq<Byte>)
    requires at + |part| <= |s|
    ensures |r| == |s| && At(r, at, part)
    ensures r[..at] == s[..at] && r[at + |part|..] == s[at + |part|..]
  {
    s[..at] + part + s[at + |part|..]
  }

  lemma Stored16(s: seq<Byte>, at: nat, v: int)
    requires At(s, at, Put16(v))
    ensures Get16(s, at) == v % 0x1_0000
  {
    var part := Put16(v);
    assert s[at] == s[at..at + 2][0] == part[0];
    assert s[at + 1] == s[at..at + 2][1] == part[1];
  }

  lemma Halves(v: int)
    ensures v % 0x1_0000 + 0x1_0000 * (v / 0x1_0000 % 0x1_0000) == v % 0x1_0000_0000
  {
    var h := v / 0x1_0000;
    assert v == 0x1_0000 * h + v % 0x1_0000;
    assert h == 0x1_0000 * (h / 0x1_0000) + h % 0x1_0000;
    assert v == 0x1_0000_0000 * (h / 0x1_0000) + (0x1_0000 * (h % 0x1_0000) + v % 0x1_0000);
  }

  lemma Stored32(s: seq<Byte>, at: nat, v: int)
    requires At(s, at, Put32(v))
    ensures Get32(s, at) == v % 0x1_0000_0000
  {
    hide At, Get16, Put16;
    Halves(v);
    AtSplit(s, at, Put16(v), Put16(v / 0x1_0000));
    Stored16(s, at, v);
    Stored16(s, at + 2, v / 0x1_0000);
  }

  lemma AtSplit(s: seq<Byte>, at: nat, a: seq<Byte>, b: seq<Byte>)
    ensures At(s, at, a + b) <==> At(s, at, a) && At(s, at + |a|, b)
  {
    if at + |a + b| <= |s| {
      var whole := s[at..at + |a + b|];
      assert whole[..|a|] == s[at..at + |a|];
      assert whole[|a|..] == s[at + |a|..at + |a| + |b|];
      assert (a + b)[..|a|] == a && (a + b)[|a|..] == b;
      assert whole == whole[..|a|] + whole[|a|..];
    }
  }

  /** Overwriting the middle of a buffer leaves the rest. */
  lemma SpliceMiddle(a: seq<Byte>, was: seq<Byte>, c: seq<Byte>, now: seq<Byte>)
    requires |was| == |now|
    ensures Splice(a + was + c, |a|, now) == a + now + c
  {
    var s := a + was + c;
    assert s[..|a|] == a && s[|a| + |now|..] == c;
  }

  lemma ZerosSplit(a: nat, b: nat)
    ensures Zeros(a + b) == Zeros(a) + Zeros(b)
  {
  }

  /** Alignment commutes with skipping whole words. */
  lemma AlignShift(words: nat, n: nat)
    ensures Align4(4 * words + n) == 4 * words + Align4(n)
  {
  }

  /** Inside a whole number of words, aligning a length does not leave it. */
  lemma AlignInside(at: nat, len: nat, size: nat)
    requires at % 4 == 0 && size % 4 == 0 && at + len <= size
    ensures at + Align4(len) <= size && (at + Align4(len)) % 4 == 0
  {
  }

  lemma AlignedStays(n: int)
    requires n % 4 == 0
    ensures Align4(n) == n
  {
  }

  /** Two 16-bit fields and a payload stored over zeros: second field first, then the first, then the payload. */
  lemma FillZeros(pre: seq<Byte>, a: seq<Byte>, b: seq<Byte>, d: seq<Byte>, end: nat, grown: seq<Byte>)
    requires |a| == |b| == 2 && grown == pre + Zeros(4 + |d| + end)
    ensures Splice(Splice(Splice(grown, |pre| + 2, b), |pre|, a), |pre| + 4, d) == pre + (a + b) + d + Zeros(end)
  {
    hide Splice, At;
    var tail := Zeros(|d|) + Zeros(end);
    assert grown == pre + Zeros(2) + Zeros(2) + tail;
    SpliceMiddle(pre + Zeros(2), Zeros(2), tail, b);
    assert pre + Zeros(2) + b + tail == pre + Zeros(2) + (b + tail);
    SpliceMiddle(pre, Zeros(2), b + tail, a);
    assert pre + a + (b + tail) == pre + (a + b) + Zeros(|d|) + Zeros(end);
    SpliceMiddle(pre + (a + b), Zeros(|d|), Zeros(end), d);
  }
}
