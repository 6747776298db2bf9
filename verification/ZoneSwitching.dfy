/**
 * Round-robin zone switching: circularFindNext and
 * switchingSequenceMonitorNotify (server/zones-manager.cpp).
 */
module ZoneSwitching {
  import opened Zones

  /** One step forward in the circle of n places. */
  function Succ(i: nat, n: nat): (j: nat)
    requires i < n
    ensures j < n
  {
    if i + 1 == n then 0 else i + 1
  }

  /** The place `d` steps after `i`. */
  function Ahead(i: nat, d: nat, n: nat): (j: nat)
    requires i < n && d <= n
    ensures j < n
  {
    if i + d < n then i + d else i + d - n
  }

  /**
   * What circularFindNext promises: the end if nothing but perhaps `current`
   * satisfies the predicate, else the first place after `current`, in cyclic order, that does.
   */
  ghost predicate IsCircularNext(sat: seq<bool>, current: nat, r: nat) {
    if |sat| == 0 || current >= |sat| then r == |sat|
    else if r == |sat| then NoneBefore(sat, current, |sat|)
    else exists d :: FirstAt(sat, current, d) && r == Ahead(current, d, |sat|)
  }

  predicate NoneBefore(sat: seq<bool>, current: nat, d: nat)
    requires current < |sat| && d <= |sat|
  {
    forall e :: 0 < e < d ==> !sat[Ahead(current, e, |sat|)]
  }

  predicate FirstAt(sat: seq<bool>, current: nat, d: int)
    requires current < |sat|
  {
    0 < d < |sat| && sat[Ahead(current, d, |sat|)] && NoneBefore(sat, current, d)
  }

  /** The iterator loop. */
  method CircularFindNext(sat: seq<bool>, current: nat) returns (r: nat)
    requires current <= |sat|
    ensures IsCircularNext(sat, current, r)
  {
    var n := |sat|;
    if n == 0 || current == n {
      return n;
    }
    var next := current;
    ghost var d := 0;
    while true
      invariant 0 <= d < n && next == Ahead(current, d, n)
      invariant NoneBefore(sat, current, d + 1)
      decreases n - d
    {
      next := next + 1;
      if next == n {
        next := 0;
      }
      if next == current {
        return n;
      }
      d := d + 1;
      if sat[next] {
        assert FirstAt(sat, current, d);
        return next;
      }
    }
  }

  /** There is only one such place. */
  lemma CircularNextUnique(sat: seq<bool>, current: nat, r: nat, q: nat)
    requires IsCircularNext(sat, current, r) && IsCircularNext(sat, current, q)
    ensures r == q
  {
    if current < |sat| && r < |sat| && q < |sat| {
      var d :| FirstAt(sat, current, d) && r == Ahead(current, d, |sat|);
      var f :| FirstAt(sat, current, f) && q == Ahead(current, f, |sat|);
      assert d == f;
    }
  }

  function RunningFlags(zs: seq<Zone>): (b: seq<bool>)
    ensures |b| == |zs| && forall i :: 0 <= i < |zs| ==> b[i] == (zs[i].state == Running)
  {
    seq(|zs|, i requires 0 <= i < |zs| => zs[i].state == Running)
  }

  /** The manager's search is circularFindNext on the running zones. */
  lemma {:induction false} SearchIsCircularNext(zs: seq<Zone>, current: nat, d: nat)
    requires current < |zs| && 0 < d <= |zs|
    requires NoneBefore(RunningFlags(zs), current, d)
    ensures IsCircularNext(RunningFlags(zs), current, SearchNext(zs, current, Ahead(current, d, |zs|)))
    decreases |zs| - d
  {
    var n, next := |zs|, Ahead(current, d, |zs|);
    if next == current {
      assert d == n;
    } else if zs[next].state == Running {
      assert FirstAt(RunningFlags(zs), current, d);
    } else {
      assert Succ(next, n) == Ahead(current, d + 1, n);
      SearchIsCircularNext(zs, current, d + 1);
    }
  }

  /** A result of circularFindNext on the running flags is what the manager's search finds. */
  lemma {:induction false} FindsTheSearched(zs: seq<Zone>, current: nat, r: nat)
    requires current < |zs| && IsCircularNext(RunningFlags(zs), current, r)
    ensures r == SearchNext(zs, current, Succ(current, |zs|))
  {
    SearchIsCircularNext(zs, current, 1);
    CircularNextUnique(RunningFlags(zs), current, r, SearchNext(zs, current, Succ(current, |zs|)));
  }

  // ---------------------------------------------------------------- fairness

  /** The indices of the running zones from `i` on, in order. */
  function RunningFrom(zs: seq<Zone>, i: nat): (r: seq<nat>)
    requires i <= |zs|
    ensures forall p :: 0 <= p < |r| ==> i <= r[p] < |zs| && zs[r[p]].state == Running
    ensures forall p, q :: 0 <= p < q < |r| ==> r[p] < r[q]
    ensures forall k :: i <= k < |zs| && zs[k].state == Running ==> k in r
    decreases |zs| - i
  {
    if i == |zs| then []
    else if zs[i].state == Running then [i] + RunningFrom(zs, i + 1)
    else RunningFrom(zs, i + 1)
  }

  function RunningIndices(zs: seq<Zone>): (r: seq<nat>)
    ensures forall p :: 0 <= p < |r| ==> r[p] < |zs| && zs[r[p]].state == Running
    ensures forall p, q :: 0 <= p < q < |r| ==> r[p] < r[q]
  {
    RunningFrom(zs, 0)
  }

  /** With at least two running zones, the one after the p-th is the next, cyclically. */
  lemma NextInOrder(zs: seq<Zone>, p: nat)
    requires p < |RunningIndices(zs)| && |RunningIndices(zs)| > 1
    ensures var r := RunningIndices(zs);
            IsCircularNext(RunningFlags(zs), r[p], r[Succ(p, |r|)])
  {
    var r, n := RunningIndices(zs), |zs|;
    var q := Succ(p, |r|);
    var d := if r[q] > r[p] then r[q] - r[p] else r[q] + n - r[p];
    assert r[q] == Ahead(r[p], d, n);
    forall e | 0 < e < d ensures !RunningFlags(zs)[Ahead(r[p], e, n)] {
      BetweenNeighbours(zs, p, Ahead(r[p], e, n));
    }
    assert FirstAt(RunningFlags(zs), r[p], d);
  }

  /** A running zone is one of the listed ones, so none lies between neighbours of the list. */
  lemma BetweenNeighbours(zs: seq<Zone>, p: nat, k: nat)
    requires p < |RunningIndices(zs)| && k < |zs|
    requires var r := RunningIndices(zs);
             if p + 1 < |r| then r[p] < k < r[p + 1] else r[p] < k || k < r[0]
    ensures zs[k].state != Running
  {
    var r := RunningIndices(zs);
    assert forall s :: 0 <= s < |r| ==> r[s] != k by {
      forall s | 0 <= s < |r| ensures r[s] != k {
        if s < p { assert r[s] < r[p]; }
        if p + 1 < s { assert r[p + 1] < r[s]; }
        if 0 < s { assert r[0] < r[s]; }
      }
    }
  }

  lemma OnlyOneRunning(zs: seq<Zone>, p: nat)
    requires |RunningIndices(zs)| == 1 && p == RunningIndices(zs)[0]
    ensures IsCircularNext(RunningFlags(zs), p, |zs|)
  {
  }

  function Notify(m: Manager, times: nat): Manager {
    if times == 0 then m else SwitchNotify(Notify(m, times - 1))
  }

  /** The running place reached from the p-th by so many steps in the circle of k. */
  function Turn(p: nat, times: nat, k: nat): (q: nat)
    requires p < k
    ensures q < k
  {
    if times == 0 then p else Succ(Turn(p, times - 1, k), k)
  }

  /** The zone a notification picks: the next running one in the circle, none if there is no other. */
  lemma NextIs(m: Manager, p: nat)
    requires NamesInv(m)
    requires var r := RunningIndices(m.zones); p < |r| && m.zones[r[p]].id == m.active
    ensures var r := RunningIndices(m.zones);
            NextToForeground(m) == if |r| == 1 then |m.zones| else r[Succ(p, |r|)]
  {
    hide IsCircularNext, RunningIndices, SearchNext, NamesInv;
    var r := RunningIndices(m.zones);
    ActivePlace(m, r[p]);
    SearchIsCircularNext(m.zones, r[p], 1);
    if |r| == 1 {
      OnlyOneRunning(m.zones, r[p]);
      CircularNextUnique(RunningFlags(m.zones), r[p], NextToForeground(m), |m.zones|);
    } else {
      NextInOrder(m.zones, p);
      CircularNextUnique(RunningFlags(m.zones), r[p], NextToForeground(m), r[Succ(p, |r|)]);
    }
  }

  lemma ActivePlace(m: Manager, i: nat)
    requires NamesInv(m) && i < |m.zones| && m.zones[i].id == m.active
    ensures Find(m.zones, m.active) == i
  {
    FindUnique(m.zones, i);
  }

  /** One notification moves the focus to the next running zone and changes nobody's run state. */
  lemma {:induction false} OneNotification(m: Manager, p: nat)
    requires NamesInv(m) && FocusInv(m)
    requires var r := RunningIndices(m.zones); p < |r| && m.zones[r[p]].id == m.active
    ensures var n, r := SwitchNotify(m), RunningIndices(m.zones);
            && NamesInv(n) && FocusInv(n) && RunningIndices(n.zones) == r && SameIds(m.zones, n.zones)
            && n.zones[r[Succ(p, |r|)]].id == n.active
            && (|r| == 1 ==> n == m)
  {
    hide NamesInv, FocusInv, NextToForeground, FocusInternal, RunningIndices;
    NextIs(m, p);
    var next := NextToForeground(m);
    if next < |m.zones| {
      FocusKeeps(m, next);
      FocusStates(m, next);
    }
  }

  lemma FocusStates(m: Manager, i: nat)
    requires i <= |m.zones|
    ensures RunningIndices(FocusInternal(m, i).zones) == RunningIndices(m.zones)
  {
    SameRunning(m.zones, FocusInternal(m, i).zones, 0);
  }

  lemma {:induction false} SameRunning(a: seq<Zone>, b: seq<Zone>, i: nat)
    requires |a| == |b| && i <= |a| && forall k :: 0 <= k < |a| ==> a[k].state == b[k].state
    ensures RunningFrom(a, i) == RunningFrom(b, i)
    decreases |a| - i
  {
    if i < |a| { SameRunning(a, b, i + 1); }
  }

  /** After any number of notifications the focus has moved on by as many running places. */
  lemma {:induction false} FocusAfter(m: Manager, p: nat, times: nat)
    requires NamesInv(m) && FocusInv(m)
    requires var r := RunningIndices(m.zones); p < |r| && m.zones[r[p]].id == m.active
    ensures var n, r := Notify(m, times), RunningIndices(m.zones);
            && NamesInv(n) && FocusInv(n) && RunningIndices(n.zones) == r && SameIds(m.zones, n.zones)
            && n.zones[r[Turn(p, times, |r|)]].id == n.active
  {
    hide NamesInv, FocusInv, SwitchNotify, RunningIndices;
    if times > 0 {
      FocusAfter(m, p, times - 1);
      OneNotification(Notify(m, times - 1), Turn(p, times - 1, |RunningIndices(m.zones)|));
    }
  }

  /**
   * Fairness: with k running zones, one of them active, each running zone gets
   * the focus in exactly one of any k consecutive notifications.
   */
  lemma {:induction false} EachFocusedOnce(m: Manager, p: nat, q: nat)
    requires NamesInv(m) && FocusInv(m)
    requires var r := RunningIndices(m.zones); p < |r| && q < |r| && m.zones[r[p]].id == m.active
    ensures var r := RunningIndices(m.zones);
            var t := TurnOf(p, q, |r|);
            && 1 <= t <= |r| && Notify(m, t).active == m.zones[r[q]].id
            && forall u :: 1 <= u <= |r| && u != t ==> Notify(m, u).active != m.zones[r[q]].id
  {
    var r := RunningIndices(m.zones);
    forall u: nat | 1 <= u <= |r| ensures Notify(m, u).active == m.zones[r[q]].id <==> u == TurnOf(p, q, |r|) {
      FocusAfter(m, p, u);
      TurnValue(p, u, |r|);
      DifferentPlaces(m, Turn(p, u, |r|), q);
    }
  }

  lemma DifferentPlaces(m: Manager, s: nat, q: nat)
    requires NamesInv(m)
    requires s < |RunningIndices(m.zones)| && q < |RunningIndices(m.zones)|
    ensures var r := RunningIndices(m.zones); m.zones[r[s]].id == m.zones[r[q]].id <==> s == q
  {
    var r := RunningIndices(m.zones);
    if s < q { assert r[s] < r[q]; } else if q < s { assert r[q] < r[s]; }
  }

  /** The notification, counted from 1 to k, that reaches place q from place p. */
  function TurnOf(p: nat, q: nat, k: nat): nat
    requires p < k && q < k
  {
    if q > p then q - p else q + k - p
  }

  lemma {:induction false} TurnValue(p: nat, u: nat, k: nat)
    requires p < k && u <= k
    ensures Turn(p, u, k) == if p + u < k then p + u else p + u - k
  {
    if u > 0 { TurnValue(p, u - 1, k); }
  }

  /** A single running active zone keeps the focus, and nothing else changes. */
  lemma {:induction false} AloneNothingMoves(m: Manager, times: nat)
    requires NamesInv(m) && FocusInv(m)
    requires var r := RunningIndices(m.zones); |r| == 1 && m.zones[r[0]].id == m.active
    ensures Notify(m, times) == m
  {
    hide NamesInv, FocusInv, SwitchNotify, RunningIndices;
    if times > 0 {
      AloneNothingMoves(m, times - 1);
      OneNotification(m, 0);
    }
  }
}
