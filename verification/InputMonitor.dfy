/**
 * The key-press detector (server/input-monitor.cpp): numberOfEvents presses of
 * one key within a time window.
 */
module InputMonitors {

  const MAX_TIME_WINDOW_SEC := 10
  const MAX_NUMBER_OF_EVENTS := 10
  const EV_KEY := 1
  const KEY_PRESSED := 1

  type Usec = u: int | 0 <= u < 1_000_000

  /** struct timeval. */
  datatype Time = Time(sec: int, usec: Usec)

  datatype InputEvent = InputEvent(time: Time, kind: int, code: int, value: int)

  predicate Matches(ie: InputEvent, code: int) {
    ie.kind == EV_KEY && ie.code == code && ie.value == KEY_PRESSED
  }

  /** Division that drops the fraction, whatever the sign. */
  function Truncated(a: int, b: int): int
    requires b > 0
  {
    if a >= 0 then a / b else -((-a) / b)
  }

  /** The code's span between two presses, in milliseconds. */
  function TimeDiff(oldest: Time, latest: Time): int {
    (latest.sec - oldest.sec) * 1000 + Truncated(latest.usec - oldest.usec, 1000)
  }

  predicate InWindow(oldest: Time, latest: Time, windowMs: int) {
    latest.sec - oldest.sec < MAX_TIME_WINDOW_SEC && TimeDiff(oldest, latest) < windowMs
  }

  function Micros(t: Time): int {
    t.sec * 1_000_000 + t.usec
  }

  /** The code's span is within a millisecond of the real one. */
  lemma TimeDiffIsMillis(oldest: Time, latest: Time)
    ensures var d := TimeDiff(oldest, latest);
            (d - 1) * 1000 < Micros(latest) - Micros(oldest) < (d + 1) * 1000
  {
  }

  /** The ten-second cut-off changes some answer exactly for windows above 9001 ms. */
  lemma CutOffMatters(windowMs: int)
    ensures windowMs <= 9001 <==>
              forall o, l :: InWindow(o, l, windowMs) == (TimeDiff(o, l) < windowMs)
  {
    if windowMs <= 9001 {
      forall o, l ensures InWindow(o, l, windowMs) == (TimeDiff(o, l) < windowMs) {
      }
    } else {
      var o, l := Time(0, 999_999), Time(10, 0);
      assert TimeDiff(o, l) == 9001 && !InWindow(o, l, windowMs);
    }
  }

  // ----------------------------------------------------- what detection means

  /** What the detector is set up for; `needed` is numberOfEvents as an unsigned number. */
  datatype Setup = Setup(code: int, needed: nat, windowMs: int)

  /** How many of events j..n match. */
  function Presses(h: seq<InputEvent>, j: nat, n: nat, code: int): nat
    requires j <= n <= |h|
    decreases n
  {
    if n == j then 0 else Presses(h, j, n - 1, code) + if Matches(h[n - 1], code) then 1 else 0
  }

  /** Event j begins a series of the needed number of presses that ends with event i, with no detection in between. */
  predicate Series(h: seq<InputEvent>, results: seq<bool>, j: nat, i: nat, s: Setup)
    requires i < |h| && i <= |results|
  {
    && j <= i
    && Matches(h[j], s.code) && Matches(h[i], s.code)
    && Presses(h, j, i + 1, s.code) == s.needed
    && (forall k :: j <= k < i ==> !results[k])
  }

  /** Event i completes a series that lies in the window. */
  predicate Fires(h: seq<InputEvent>, results: seq<bool>, i: nat, s: Setup)
    requires i < |h| && i <= |results|
  {
    exists j: nat :: j <= i && Series(h, results, j, i, s) && InWindow(h[j].time, h[i].time, s.windowMs)
  }

  /** The detector answered true exactly where a series completes. */
  predicate Exact(h: seq<InputEvent>, results: seq<bool>, s: Setup)
    requires |h| == |results|
  {
    forall i :: 0 <= i < |h| ==> (results[i] <==> Fires(h, results, i, s))
  }

  // ---------------------------------------------------- presses not yet used up

  /** The places of the presses since the last detection. */
  function Pending(h: seq<InputEvent>, results: seq<bool>, code: int): (p: seq<nat>)
    requires |h| == |results|
    ensures forall k :: 0 <= k < |p| ==> p[k] < |h|
  {
    if h == [] || results[|h| - 1] then []
    else
      Pending(h[..|h| - 1], results[..|h| - 1], code) + if Matches(h[|h| - 1], code) then [|h| - 1] else []
  }

  lemma {:induction false} PressesPrefix(h: seq<InputEvent>, e: InputEvent, j: nat, n: nat, code: int)
    requires j <= n <= |h|
    ensures Presses(h + [e], j, n, code) == Presses(h, j, n, code)
    decreases n
  {
    if n != j {
      PressesPrefix(h, e, j, n - 1, code);
    }
  }

  /** Every pending press counts the presses from it on, and no detection came after it. */
  lemma {:induction false} PendingCounts(h: seq<InputEvent>, results: seq<bool>, code: int, k: nat)
    requires |h| == |results| && k < |Pending(h, results, code)|
    ensures var p := Pending(h, results, code);
            && Matches(h[p[k]], code)
            && Presses(h, p[k], |h|, code) == |p| - k
            && forall i :: p[k] <= i < |h| ==> !results[i]
  {
    var n := |h| - 1;
    var h', r' := h[..n], results[..n];
    var p', p := Pending(h', r', code), Pending(h, results, code);
    assert h == h' + [h[n]];
    if k < |p'| {
      PendingCounts(h', r', code, k);
      PressesPrefix(h', h[n], p'[k], n, code);
      assert forall i :: p'[k] <= i < n ==> results[i] == r'[i];
    }
  }

  /** A press with no detection since is pending. */
  lemma {:induction false} PendingHasAll(h: seq<InputEvent>, results: seq<bool>, code: int, j: nat)
    requires |h| == |results| && j < |h| && Matches(h[j], code)
    requires forall i :: j <= i < |h| ==> !results[i]
    ensures j in Pending(h, results, code)
  {
    var n := |h| - 1;
    if j < n {
      var h', r' := h[..n], results[..n];
      assert h'[j] == h[j];
      assert forall i :: j <= i < n ==> !r'[i] by { assert forall i :: 0 <= i < n ==> r'[i] == results[i]; }
      PendingHasAll(h', r', code, j);
    }
  }

  /** The answer to one more event, from the pending presses alone. */
  predicate Answer(h: seq<InputEvent>, results: seq<bool>, e: InputEvent, s: Setup)
    requires |h| == |results| && s.needed >= 2
  {
    var p := Pending(h, results, s.code);
    && Matches(e, s.code)
    && |p| + 1 >= s.needed
    && InWindow(h[p[|p| + 1 - s.needed]].time, e.time, s.windowMs)
  }

  /** The count of presses up to the new event. */
  lemma PressesToNow(h: seq<InputEvent>, e: InputEvent, j: nat, code: int)
    requires j < |h|
    ensures (h + [e])[j] == h[j]
    ensures Presses(h + [e], j, |h| + 1, code) == Presses(h, j, |h|, code) + if Matches(e, code) then 1 else 0
  {
    hide Matches;
    PressesPrefix(h, e, j, |h|, code);
    assert (h + [e])[|h|] == e;
  }

  lemma SeriesIsPending(h: seq<InputEvent>, results: seq<bool>, e: InputEvent, s: Setup, j: nat)
    requires |h| == |results| && s.needed >= 2 && j <= |h|
    ensures Series(h + [e], results, j, |h|, s) <==>
              var p := Pending(h, results, s.code);
              Matches(e, s.code) && |p| + 1 >= s.needed && j == p[|p| + 1 - s.needed]
  {
    hide Presses, Pending, Matches;
    var p := Pending(h, results, s.code);
    assert (h + [e])[|h|] == e;
    if Matches(e, s.code) && |p| + 1 >= s.needed && j == p[|p| + 1 - s.needed] {
      PendingCounts(h, results, s.code, |p| + 1 - s.needed);
      PressesToNow(h, e, j, s.code);
    }
    if Series(h + [e], results, j, |h|, s) {
      PressesShort(h, e, j, s.code);
      PressesToNow(h, e, j, s.code);
      PendingHasAll(h, results, s.code, j);
      var k :| 0 <= k < |p| && p[k] == j;
      PendingCounts(h, results, s.code, k);
    }
  }

  /** The new event alone is one press at most. */
  lemma PressesShort(h: seq<InputEvent>, e: InputEvent, j: nat, code: int)
    requires j <= |h| && Presses(h + [e], j, |h| + 1, code) >= 2
    ensures j < |h|
  {
  }

  /** Answering so is answering by the definition. */
  lemma AnswerIsFires(h: seq<InputEvent>, results: seq<bool>, e: InputEvent, s: Setup)
    requires |h| == |results| && s.needed >= 2
    ensures Answer(h, results, e, s) <==> Fires(h + [e], results, |h|, s)
  {
    forall j: nat | j <= |h|
      ensures Series(h + [e], results, j, |h|, s) <==>
                var p := Pending(h, results, s.code);
                Matches(e, s.code) && |p| + 1 >= s.needed && j == p[|p| + 1 - s.needed]
    {
      SeriesIsPending(h, results, e, s, j);
    }
    if Answer(h, results, e, s) {
      var p := Pending(h, results, s.code);
      var j := p[|p| + 1 - s.needed];
      assert (h + [e])[j] == h[j] && Series(h + [e], results, j, |h|, s);
    }
    if Fires(h + [e], results, |h|, s) {
      var j: nat :| j <= |h| && Series(h + [e], results, j, |h|, s) && InWindow((h + [e])[j].time, e.time, s.windowMs);
    }
  }

  /** Earlier answers stay right as the history grows. */
  lemma FiresStays(h: seq<InputEvent>, results: seq<bool>, e: InputEvent, r: bool, i: nat, s: Setup)
    requires i < |h| == |results|
    ensures Fires(h + [e], results + [r], i, s) <==> Fires(h, results, i, s)
  {
    forall j: nat | j <= i
      ensures Series(h + [e], results + [r], j, i, s) <==> Series(h, results, j, i, s)
    {
      PressesPrefix(h, e, j, i + 1, s.code);
      assert forall k :: 0 <= k < |h| ==> (results + [r])[k] == results[k];
    }
  }

  lemma FiresIgnoresNow(h: seq<InputEvent>, results: seq<bool>, r: bool, i: nat, s: Setup)
    requires i + 1 == |h| && i == |results|
    ensures Fires(h, results + [r], i, s) <==> Fires(h, results, i, s)
  {
    forall j: nat | j <= i
      ensures Series(h, results + [r], j, i, s) <==> Series(h, results, j, i, s)
    {
      assert forall k :: 0 <= k < i ==> (results + [r])[k] == results[k];
    }
  }

  lemma ExactGrows(h: seq<InputEvent>, results: seq<bool>, e: InputEvent, r: bool, s: Setup)
    requires |h| == |results| && s.needed >= 2 && Exact(h, results, s)
    requires r == Answer(h, results, e, s)
    ensures Exact(h + [e], results + [r], s)
  {
    hide Fires, Answer;
    AnswerIsFires(h, results, e, s);
    FiresIgnoresNow(h + [e], results, r, |h|, s);
    forall i | 0 <= i < |h| + 1 ensures (results + [r])[i] <==> Fires(h + [e], results + [r], i, s) {
      if i < |h| {
        FiresStays(h, results, e, r, i, s);
      }
    }
  }

  // ------------------------------------------------------------------ the object

  /** The times of the last (up to) n pending presses. */
  function Latest(h: seq<InputEvent>, p: seq<nat>, n: nat): seq<Time>
    requires forall k :: 0 <= k < |p| ==> p[k] < |h|
  {
    var q := if |p| <= n then p else p[|p| - n..];
    seq(|q|, k requires 0 <= k < |q| => h[q[k]].time)
  }

  lemma PendingGrows(h: seq<InputEvent>, results: seq<bool>, e: InputEvent, r: bool, code: int)
    requires |h| == |results|
    ensures Pending(h + [e], results + [r], code) ==
              if r then [] else Pending(h, results, code) + if Matches(e, code) then [|h|] else []
  {
    assert (h + [e])[..|h|] == h && (results + [r])[..|h|] == results;
  }

  lemma ExactMeans(h: seq<InputEvent>, results: seq<bool>, s: Setup, i: nat)
    requires i < |h| == |results| && Exact(h, results, s)
    ensures results[i] <==> Fires(h, results, i, s)
  {
  }

  /** One more press moves the window of times along. */
  lemma LatestGrows(h: seq<InputEvent>, p: seq<nat>, e: InputEvent, n: nat)
    requires n >= 1 && forall k :: 0 <= k < |p| ==> p[k] < |h|
    ensures var l := Latest(h, p, n);
            && |l| == (if |p| <= n then |p| else n)
            && (|p| >= n ==> l[0] == h[p[|p| - n]].time)
            && Latest(h + [e], p, n) == l
            && Latest(h + [e], p + [|h|], n) == (if |l| < n then l + [e.time] else l[1..] + [e.time])
            && Latest(h + [e], [], n) == []
  {
  }

  /** One event, on the queue of times alone: the new queue and the answer. */
  function Detect(q: seq<Time>, e: InputEvent, s: Setup): (seq<Time>, bool)
    requires s.needed >= 2
  {
    if !Matches(e, s.code) then (q, false)
    else if |q| + 1 < s.needed then (q + [e.time], false)
    else if InWindow(q[0], e.time, s.windowMs) then ([], true)
    else (q[1..] + [e.time], false)
  }

  /** Releases (value 0), repeats (value 2), other keys and other types change nothing; a press (1 and 1) is queued or detected. */
  lemma OnlyPressesCount(q: seq<Time>, e: InputEvent, s: Setup)
    requires s.needed >= 2
    ensures e.kind != 1 || e.code != s.code || e.value != 1 ==> Detect(q, e, s) == (q, false)
    ensures e.kind == 1 && e.code == s.code && e.value == 1 ==>
              var (q', r) := Detect(q, e, s); if r then q' == [] else q' != [] && q'[|q'| - 1] == e.time
  {
  }

  /** The queue is the latest pending presses. */
  predicate Follows(q: seq<Time>, h: seq<InputEvent>, results: seq<bool>, s: Setup)
    requires s.needed >= 2
    ensures Follows(q, h, results, s) ==> |h| == |results|
  {
    |h| == |results| && q == Latest(h, Pending(h, results, s.code), s.needed - 1)
  }

  /** The short queue answers as the whole history does, and stays what it is. */
  lemma DetectIsExact(q: seq<Time>, h: seq<InputEvent>, results: seq<bool>, e: InputEvent, s: Setup)
    requires s.needed >= 2 && Follows(q, h, results, s) && Exact(h, results, s)
    ensures var (q', r) := Detect(q, e, s);
            && Follows(q', h + [e], results + [r], s)
            && Exact(h + [e], results + [r], s)
            && |q'| < s.needed
  {
    hide Latest, Pending, Fires, Exact;
    var (q', r) := Detect(q, e, s);
    var p := Pending(h, results, s.code);
    assert p + [] == p;
    LatestGrows(h, p, e, s.needed - 1);
    PendingGrows(h, results, e, r, s.code);
    ExactGrows(h, results, e, r, s);
  }

  /** The queue and the answers after a whole history. */
  function DetectAll(h: seq<InputEvent>, s: Setup): (seq<Time>, seq<bool>)
    requires s.needed >= 2
  {
    if h == [] then ([], [])
    else
      var (q, results) := DetectAll(h[..|h| - 1], s);
      var (q', r) := Detect(q, h[|h| - 1], s);
      (q', results + [r])
  }

  /** Over every history the detector answers true exactly where a series completes, and never holds a full series. */
  lemma {:induction false} DetectorIsExact(h: seq<InputEvent>, s: Setup)
    requires s.needed >= 2
    ensures var (q, results) := DetectAll(h, s);
            |results| == |h| && Exact(h, results, s) && Follows(q, h, results, s) && |q| < s.needed
  {
    if h != [] {
      hide Exact, Follows, Detect;
      var front, e := h[..|h| - 1], h[|h| - 1];
      DetectorIsExact(front, s);
      var (q, results) := DetectAll(front, s);
      DetectIsExact(q, front, results, e, s);
      assert front + [e] == h;
    }
  }

  class InputMonitor {
    const mCode: int
    const mNumberOfEvents: int
    const mTimeWindowMs: int
    var mEventTimes: seq<Time>
    ghost var mHistory: seq<InputEvent>
    ghost var mResults: seq<bool>

    function Needed(): nat {
      mNumberOfEvents % 0x1_0000_0000
    }

    function GetSetup(): Setup {
      Setup(mCode, Needed(), mTimeWindowMs)
    }

    ghost predicate Valid()
      reads this
    {
      && |mHistory| == |mResults|
      && (Needed() >= 2 ==> Follows(mEventTimes, mHistory, mResults, GetSetup()) && Exact(mHistory, mResults, GetSetup()))
    }

    constructor (code: int, numberOfEvents: int, timeWindowMs: int)
      requires timeWindowMs <= MAX_TIME_WINDOW_SEC * 1000 && numberOfEvents <= MAX_NUMBER_OF_EVENTS
      ensures Valid() && mHistory == [] && GetSetup() == Setup(code, numberOfEvents % 0x1_0000_0000, timeWindowMs)
    {
      mCode, mNumberOfEvents, mTimeWindowMs := code, numberOfEvents, timeWindowMs;
      mEventTimes, mHistory, mResults := [], [], [];
    }

    /** A window or a number of events above the maximum is refused. */
    static method Create(code: int, numberOfEvents: int, timeWindowMs: int) returns (m: InputMonitor?)
      ensures m == null <==> timeWindowMs > 10_000 || numberOfEvents > 10
      ensures m != null ==> fresh(m) && m.Valid() && m.mHistory == []
    {
      if timeWindowMs > MAX_TIME_WINDOW_SEC * 1000 {
        return null;
      }
      if numberOfEvents > MAX_NUMBER_OF_EVENTS {
        return null;
      }
      m := new InputMonitor(code, numberOfEvents, timeWindowMs);
    }

    /** With 0 or 1 events needed the code would take the last element of an empty list. */
    method IsExpectedEventSequence(ie: InputEvent) returns (r: bool)
      requires Valid() && Needed() >= 2
      modifies this
      ensures Valid() && mHistory == old(mHistory) + [ie] && mResults == old(mResults) + [r]
      ensures r <==> Fires(mHistory, mResults, |mHistory| - 1, GetSetup())
      ensures |mEventTimes| < Needed()
    {
      hide Follows, Exact, Fires;
      DetectIsExact(mEventTimes, mHistory, mResults, ie, GetSetup());
      r := false;
      if Matches(ie, mCode) {
        mEventTimes := mEventTimes + [ie.time];
        if |mEventTimes| >= Needed() {
          var oldest := mEventTimes[0];
          mEventTimes := mEventTimes[1..];
          assert mEventTimes == old(mEventTimes)[1..] + [ie.time];
          var latest := mEventTimes[|mEventTimes| - 1];
          var secDiff := latest.sec - oldest.sec;
          if secDiff < MAX_TIME_WINDOW_SEC {
            var timeDiff := secDiff * 1000;
            timeDiff := timeDiff + Truncated(latest.usec - oldest.usec, 1000);
            if timeDiff < mTimeWindowMs {
              mEventTimes := [];
              r := true;
            }
          }
        }
      }
      mHistory := mHistory + [ie];
      mResults := mResults + [r];
      ExactMeans(mHistory, mResults, GetSetup(), |mHistory| - 1);
    }
  }
}
