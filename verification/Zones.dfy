/**
 * The zones manager's state and one function per handler
 * (server/zones-manager.cpp, server/zone.cpp), with the invariants that every
 * run of the handlers keeps. LXC and the VT switch succeed unless a parameter says otherwise.
 */
module Zones {
  import opened Options
  import T = Texts

  const HOST_ID := "host"
  const PROHIBITED := ["enabled", "lxc-monitord.log"]
  const ZONE_IP_BASE_THIRD_OCTET := 100

  datatype LxcState = Stopped | Running | Frozen
  datatype Level = Foreground | Background
  datatype Requested = ReqStopped | ReqRunning | ReqPaused

  /** A zone; `wantsVT` says that its template asked for a virtual terminal. */
  datatype Zone = Zone(id: string, state: LxcState, level: Level, requested: Requested, vt: int, wantsVT: bool,
                       switchAllowed: bool)

  datatype Dynamic = Dynamic(zoneIds: seq<string>, defaultId: string)

  /** `saved` is the dynamic config in the database, `enabled` the marker file in the zones path. */
  datatype Manager = Manager(zones: seq<Zone>, active: string, dynamic: Dynamic, saved: Dynamic, enabled: bool)

  // ---------------------------------------------------------------- lookup

  /** findZone: the first zone with the id, or the end. */
  function Find(zs: seq<Zone>, id: string): (i: nat)
    ensures i <= |zs|
    ensures i < |zs| ==> zs[i].id == id
    ensures forall k :: 0 <= k < i ==> zs[k].id != id
  {
    if zs == [] then 0 else if zs[0].id == id then 0 else 1 + Find(zs[1..], id)
  }

  function FirstRunning(zs: seq<Zone>): (i: nat)
    ensures i <= |zs|
    ensures i < |zs| ==> zs[i].state == Running
    ensures forall k :: 0 <= k < i ==> zs[k].state != Running
  {
    if zs == [] then 0 else if zs[0].state == Running then 0 else 1 + FirstRunning(zs[1..])
  }

  predicate IsRunningAt(zs: seq<Zone>, i: nat) {
    i < |zs| && zs[i].state == Running
  }

  function Ids(zs: seq<Zone>): (ids: seq<string>)
    ensures |ids| == |zs| && forall i :: 0 <= i < |zs| ==> ids[i] == zs[i].id
  {
    seq(|zs|, i requires 0 <= i < |zs| => zs[i].id)
  }

  predicate Distinct(zs: seq<Zone>) {
    forall i, j :: 0 <= i < j < |zs| ==> zs[i].id != zs[j].id
  }

  // ---------------------------------------------------------------- focus

  /** Scheduler levels after the focus moved to `id`: stopped and frozen zones are not touched. */
  function Promote(zs: seq<Zone>, id: string): (r: seq<Zone>)
    ensures |r| == |zs|
    ensures forall i :: 0 <= i < |zs| ==> r[i] == Promoted(zs[i], id)
  {
    seq(|zs|, i requires 0 <= i < |zs| => Promoted(zs[i], id))
  }

  function Promoted(z: Zone, id: string): Zone {
    if z.state != Running then z else z.(level := if z.id == id then Foreground else Background)
  }

  function FocusInternal(m: Manager, i: nat): Manager
    requires i <= |m.zones|
  {
    if i == |m.zones| then m.(active := "")
    else if m.zones[i].id == m.active then m
    else if m.zones[i].state != Running then m
    else m.(zones := Promote(m.zones, m.zones[i].id), active := m.zones[i].id)
  }

  function RefocusTarget(m: Manager): (i: nat)
    ensures i <= |m.zones|
  {
    var d := Find(m.zones, m.dynamic.defaultId);
    if IsRunningAt(m.zones, d) then d else FirstRunning(m.zones)
  }

  function Refocus(m: Manager): Manager {
    if IsRunningAt(m.zones, Find(m.zones, m.active)) then m else FocusInternal(m, RefocusTarget(m))
  }

  // ---------------------------------------------------------------- handlers on a zone

  function SetZone(m: Manager, i: nat, z: Zone): Manager
    requires i < |m.zones|
  {
    m.(zones := m.zones[i := z])
  }

  /** Zone::start and the focus that follows; LXC refuses to start a frozen zone. */
  function StartZone(m: Manager, id: string, lxcStarts: bool): Manager {
    var i := Find(m.zones, id);
    if i == |m.zones| then m
    else
      var z := m.zones[i].(requested := ReqRunning);
      if z.state == Running then FocusInternal(SetZone(m, i, z), i)
      else if z.state == Frozen || !lxcStarts then SetZone(m, i, z)
      else FocusInternal(SetZone(m, i, z.(state := Running, level := Foreground)), i)
  }

  /** Zone::stop boosts a running zone first; if LXC cannot stop it, the handler gives up there. */
  function ShutdownZone(m: Manager, id: string, lxcStops: bool): Manager {
    var i := Find(m.zones, id);
    if i == |m.zones| then m
    else
      var z := m.zones[i].(requested := ReqStopped);
      var boosted := if z.state == Running then z.(level := Foreground) else z;
      if z.state == Stopped then Refocus(SetZone(m, i, z))
      else if !lxcStops then SetZone(m, i, boosted)
      else Refocus(SetZone(m, i, boosted.(state := Stopped)))
  }

  function LockZone(m: Manager, id: string): Manager {
    var i := Find(m.zones, id);
    if !IsRunningAt(m.zones, i) then m
    else Refocus(SetZone(m, i, m.zones[i].(level := Background, state := Frozen, requested := ReqPaused)))
  }

  function UnlockZone(m: Manager, id: string): Manager {
    var i := Find(m.zones, id);
    if i == |m.zones| || m.zones[i].state != Frozen then m
    else SetZone(m, i, m.zones[i].(state := Running, requested := ReqRunning))
  }

  function SetActiveZone(m: Manager, id: string): Manager {
    var i := Find(m.zones, id);
    if !IsRunningAt(m.zones, i) then m else FocusInternal(m, i)
  }

  function SwitchToDefault(m: Manager): Manager {
    var a, d := Find(m.zones, m.active), Find(m.zones, m.dynamic.defaultId);
    if a < |m.zones| && m.zones[a].switchAllowed && IsRunningAt(m.zones, d) then FocusInternal(m, d) else m
  }

  /** The search of circularFindNext from `next` on, for the first running zone before coming back to `current`. */
  function SearchNext(zs: seq<Zone>, current: nat, next: nat): (r: nat)
    requires current < |zs| && next < |zs|
    ensures r <= |zs| && (r < |zs| ==> zs[r].state == Running && r != current)
    decreases if next <= current then current - next else |zs| - next + current
  {
    if next == current then |zs|
    else if zs[next].state == Running then next
    else SearchNext(zs, current, if next + 1 == |zs| then 0 else next + 1)
  }

  function NextToForeground(m: Manager): (r: nat)
    ensures r <= |m.zones| && (r < |m.zones| ==> m.zones[r].state == Running)
  {
    var current := Find(m.zones, m.active);
    if current == |m.zones| then FirstRunning(m.zones)
    else SearchNext(m.zones, current, if current + 1 == |m.zones| then 0 else current + 1)
  }

  /** switchingSequenceMonitorNotify. */
  function SwitchNotify(m: Manager): Manager {
    var next := NextToForeground(m);
    if next == |m.zones| then m else FocusInternal(m, next)
  }

  // ---------------------------------------------------------------- registry

  function Saved(m: Manager): Manager {
    m.(saved := m.dynamic)
  }

  function UpdateDefaultId(m: Manager): Manager {
    if m.zones == [] && m.dynamic.defaultId == "" then m
    else if Find(m.zones, m.dynamic.defaultId) < |m.zones| then m
    else Saved(m.(dynamic := m.dynamic.(defaultId := if m.zones == [] then "" else m.zones[0].id)))
  }

  predicate AlnumChar(c: char) {
    '0' <= c <= '9' || 'A' <= c <= 'Z' || 'a' <= c <= 'z'
  }

  predicate Alnum(s: string) {
    forall c :: c in s ==> AlnumChar(c)
  }

  datatype Created =
    | Done | InvalidName | NameNotAllowed | AlreadyExists | PathExists | ImageFailed | ConfigFailed | NoFreeVT
    | ReservedId | ZoneFailed

  /** What the file system, the template and LXC contribute to a creation. */
  datatype Env = Env(pathExists: bool, imageOk: bool, configOk: bool, templateVT: int, switchAllowed: bool, zoneOk: bool)

  function UsedVTs(zs: seq<Zone>): set<int> {
    set z | z in zs :: z.vt
  }

  /** getVTForNewZone: the smallest number of the pool that no zone uses. */
  function SmallestFree(pool: seq<int>, used: set<int>): (r: Option<int>)
    ensures r.None? <==> forall v :: v in pool ==> v in used
    ensures r.Some? ==> r.value in pool && r.value !in used
                        && forall w :: w in pool && w !in used ==> r.value <= w
  {
    if pool == [] then None
    else
      var rest := SmallestFree(pool[1..], used);
      if pool[0] in used || (rest.Some? && rest.value < pool[0]) then rest else Some(pool[0])
  }

  /** What becomes of a createZone call, in the order of its checks. */
  function CreateOutcome(m: Manager, pool: seq<int>, id: string, env: Env): Created {
    if id == "" || !Alnum(id) then InvalidName
    else if id in PROHIBITED then NameNotAllowed
    else if Find(m.zones, id) < |m.zones| then AlreadyExists
    else if env.pathExists then PathExists
    else if !env.imageOk then ImageFailed
    else if !env.configOk then ConfigFailed
    else if env.templateVT >= 0 && pool != [] && SmallestFree(pool, UsedVTs(m.zones)).None? then NoFreeVT
    else if id == HOST_ID then ReservedId
    else if !env.zoneOk then ZoneFailed
    else Done
  }

  /** The VT a new zone gets: the smallest free one, none from an empty pool, the template's own if negative. */
  function NewVT(m: Manager, pool: seq<int>, templateVT: int): int
    requires templateVT >= 0 && pool != [] ==> SmallestFree(pool, UsedVTs(m.zones)).Some?
  {
    if templateVT < 0 then templateVT else if pool == [] then -1 else SmallestFree(pool, UsedVTs(m.zones)).value
  }

  function Insert(m: Manager, z: Zone): Manager {
    m.(zones := m.zones + [z], enabled := m.enabled || |m.zones| + 1 == 1)
  }

  function NewZone(m: Manager, pool: seq<int>, id: string, env: Env): Zone
    requires CreateOutcome(m, pool, id, env) == Done
  {
    Zone(id, Stopped, Background, ReqStopped, NewVT(m, pool, env.templateVT), env.templateVT >= 0, env.switchAllowed)
  }

  function CreateZone(m: Manager, pool: seq<int>, id: string, env: Env): Manager {
    if CreateOutcome(m, pool, id, env) != Done then m
    else
      var n := Insert(m, NewZone(m, pool, id, env));
      UpdateDefaultId(Saved(n.(dynamic := n.dynamic.(zoneIds := n.dynamic.zoneIds + [id]))))
  }

  /** The erase-remove idiom. */
  function Without(s: seq<string>, x: string): (r: seq<string>)
    ensures forall y :: y in r <==> y in s && y != x
  {
    if s == [] then [] else (if s[0] == x then [] else [s[0]]) + Without(s[1..], x)
  }

  function Erased(m: Manager, i: nat, id: string): Manager
    requires i < |m.zones|
  {
    var rest := m.zones[..i] + m.zones[i + 1..];
    m.(zones := rest, enabled := m.enabled && rest != [],
       dynamic := m.dynamic.(zoneIds := Without(m.dynamic.zoneIds, id)))
  }

  function DestroyZone(m: Manager, id: string): Manager {
    var i := Find(m.zones, id);
    if i == |m.zones| then m else Refocus(UpdateDefaultId(Saved(Erased(m, i, id))))
  }

  // ---------------------------------------------------------------- invariants

  /** The active zone is a managed running zone, and the only running zone in the foreground; paused zones are behind. */
  predicate FocusInv(m: Manager) {
    && (m.active != "" ==> IsRunningAt(m.zones, Find(m.zones, m.active)))
    && forall i :: 0 <= i < |m.zones| ==>
         && (m.zones[i].state == Running ==> (m.zones[i].level == Foreground <==> m.zones[i].id == m.active))
         && (m.zones[i].state == Frozen ==> m.zones[i].level == Background)
  }

  /**
   * What is left of FocusInv when LXC refuses to stop a boosted zone: the active zone
   * runs in the foreground and paused zones are behind; other running zones may be anywhere.
   */
  predicate LooseFocus(m: Manager) {
    && (m.active != "" ==> IsRunningAt(m.zones, Find(m.zones, m.active)))
    && forall i :: 0 <= i < |m.zones| ==>
         && (m.zones[i].state == Running && m.zones[i].id == m.active ==> m.zones[i].level == Foreground)
         && (m.zones[i].state == Frozen ==> m.zones[i].level == Background)
  }

  predicate NameOk(id: string) {
    id != "" && id != HOST_ID && id !in PROHIBITED
  }

  predicate NamesInv(m: Manager) {
    Distinct(m.zones) && forall z :: z in m.zones ==> NameOk(z.id)
  }

  /** Ids, default and marker file agree with the zones, in memory and in the database. */
  predicate RegistryInv(m: Manager) {
    && m.dynamic.zoneIds == Ids(m.zones) && m.saved == m.dynamic
    && (m.dynamic.defaultId == "" <==> m.zones == [])
    && (m.zones != [] ==> m.dynamic.defaultId in m.dynamic.zoneIds)
    && (m.enabled <==> m.zones != [])
  }

  /** Zones that asked for a VT have pairwise different ones, all from the pool; the others have none. */
  predicate VTInv(m: Manager, pool: seq<int>) {
    pool != [] ==>
      && (forall z :: z in m.zones ==> if z.wantsVT then z.vt in pool else z.vt < 0)
      && forall i, j :: 0 <= i < j < |m.zones| && m.zones[i].wantsVT && m.zones[j].wantsVT ==>
           m.zones[i].vt != m.zones[j].vt
  }

  predicate Inv(m: Manager, pool: seq<int>) {
    NamesInv(m) && FocusInv(m) && RegistryInv(m) && VTInv(m, pool)
  }

  /** The invariant of all runs, refused shutdowns included. */
  predicate LooseInv(m: Manager, pool: seq<int>) {
    NamesInv(m) && LooseFocus(m) && RegistryInv(m) && VTInv(m, pool)
  }

  /** Some zone is active if any runs. */
  predicate Focused(m: Manager) {
    (exists z :: z in m.zones && z.state == Running) ==> m.active != ""
  }

  // ---------------------------------------------------------------- focus lemmas

  lemma FindUnique(zs: seq<Zone>, i: nat)
    requires Distinct(zs) && i < |zs|
    ensures Find(zs, zs[i].id) == i
  {
  }

  /** Same ids, in the same places. */
  predicate SameIds(a: seq<Zone>, b: seq<Zone>) {
    |a| == |b| && forall i :: 0 <= i < |a| ==> a[i].id == b[i].id
  }

  lemma FindSame(a: seq<Zone>, b: seq<Zone>, id: string)
    requires SameIds(a, b)
    ensures Find(a, id) == Find(b, id)
  {
  }

  /** Paused zones are in the background; nothing is said of running ones. */
  predicate AlmostFocused(m: Manager) {
    forall i :: 0 <= i < |m.zones| ==> (m.zones[i].state == Frozen ==> m.zones[i].level == Background)
  }

  /** Focusing a running zone that is not active restores the invariant, whatever the levels were. */
  lemma FocusRestores(m: Manager, i: nat)
    requires NamesInv(m) && AlmostFocused(m) && IsRunningAt(m.zones, i) && m.zones[i].id != m.active
    ensures FocusInv(FocusInternal(m, i)) && NamesInv(FocusInternal(m, i)) && Focused(FocusInternal(m, i))
    ensures SameIds(m.zones, FocusInternal(m, i).zones)
  {
    var n := FocusInternal(m, i);
    assert m.zones[i] in m.zones;
    FindUnique(n.zones, i);
    KeepNames(m.zones, n.zones);
  }

  lemma KeepNames(a: seq<Zone>, b: seq<Zone>)
    requires SameIds(a, b) && Distinct(a) && forall z :: z in a ==> NameOk(z.id)
    ensures Distinct(b) && forall z :: z in b ==> NameOk(z.id)
  {
    forall z | z in b ensures NameOk(z.id) {
      var k :| 0 <= k < |b| && b[k] == z;
      assert a[k] in a;
    }
  }

  /** With the active zone gone or not running, refocus ends with some running zone active, or the host. */
  lemma {:induction false} RefocusRestores(m: Manager)
    requires NamesInv(m) && AlmostFocused(m)
    requires !IsRunningAt(m.zones, Find(m.zones, m.active))
    ensures FocusInv(Refocus(m)) && NamesInv(Refocus(m)) && Focused(Refocus(m))
    ensures SameIds(m.zones, Refocus(m).zones)
  {
    var i := RefocusTarget(m);
    if i < |m.zones| {
      if m.zones[i].id == m.active { FindUnique(m.zones, i); }
      FocusRestores(m, i);
    } else {
      assert forall z :: z in m.zones ==> z.state != Running;
    }
  }

  lemma {:induction false} FocusKeeps(m: Manager, i: nat)
    requires NamesInv(m) && FocusInv(m) && IsRunningAt(m.zones, i)
    ensures var n := FocusInternal(m, i); FocusInv(n) && NamesInv(n) && Focused(n) && n.active == m.zones[i].id
    ensures SameIds(m.zones, FocusInternal(m, i).zones)
  {
    assert m.zones[i] in m.zones;
    if m.zones[i].id != m.active { FocusRestores(m, i); }
  }

  // ---------------------------------------------------------------- what the handlers do not touch

  /** Only run states, scheduler levels, requested states and the active id may differ. */
  predicate Frame(m: Manager, n: Manager) {
    && n.dynamic == m.dynamic && n.saved == m.saved && n.enabled == m.enabled && |n.zones| == |m.zones|
    && forall i :: 0 <= i < |m.zones| ==>
         var a, b := m.zones[i], n.zones[i];
         a.id == b.id && a.vt == b.vt && a.wantsVT == b.wantsVT && a.switchAllowed == b.switchAllowed
  }

  lemma FrameKeeps(m: Manager, n: Manager, pool: seq<int>)
    requires Frame(m, n) && NamesInv(m) && RegistryInv(m) && VTInv(m, pool)
    ensures NamesInv(n) && RegistryInv(n) && VTInv(n, pool)
  {
    KeepNames(m.zones, n.zones);
    assert Ids(n.zones) == Ids(m.zones);
    forall z | z in n.zones && pool != [] ensures if z.wantsVT then z.vt in pool else z.vt < 0 {
      var k :| 0 <= k < |n.zones| && n.zones[k] == z;
      assert m.zones[k] in m.zones;
    }
  }

  /** Setting the run state, level or request of a zone, then moving the focus, stays in the frame. */
  lemma {:induction false} SetAndFocusFrame(m: Manager, i: nat, z: Zone, to: nat)
    requires i < |m.zones| && z.id == m.zones[i].id && z.vt == m.zones[i].vt
    requires z.wantsVT == m.zones[i].wantsVT && z.switchAllowed == m.zones[i].switchAllowed && to <= |m.zones|
    ensures Frame(m, SetZone(m, i, z)) && Frame(m, FocusInternal(SetZone(m, i, z), to))
    ensures Frame(m, Refocus(SetZone(m, i, z)))
  {
    FocusFrame(SetZone(m, i, z), to);
    FocusFrame(SetZone(m, i, z), RefocusTarget(SetZone(m, i, z)));
  }

  lemma FocusFrame(m: Manager, to: nat)
    requires to <= |m.zones|
    ensures Frame(m, FocusInternal(m, to))
  {
  }

  lemma {:induction false} StartFrame(m: Manager, id: string, ok: bool)
    ensures Frame(m, StartZone(m, id, ok))
  {
    hide FocusInternal, Find;
    var i := Find(m.zones, id);
    FindBound(m.zones, id);
    if i < |m.zones| {
      SetAndFocusFrame(m, i, m.zones[i].(requested := ReqRunning), i);
      SetAndFocusFrame(m, i, m.zones[i].(requested := ReqRunning, state := Running, level := Foreground), i);
    }
  }

  lemma FindBound(zs: seq<Zone>, id: string)
    ensures Find(zs, id) <= |zs|
  {
  }

  lemma FindHit(zs: seq<Zone>, id: string)
    ensures Find(zs, id) < |zs| ==> zs[Find(zs, id)].id == id
  {
  }

  lemma {:induction false} ShutdownFrame(m: Manager, id: string, ok: bool)
    ensures Frame(m, ShutdownZone(m, id, ok))
  {
    hide Refocus, Find;
    var i := Find(m.zones, id);
    FindBound(m.zones, id);
    if i < |m.zones| {
      var z := m.zones[i].(requested := ReqStopped);
      var boosted := if z.state == Running then z.(level := Foreground) else z;
      SetAndFocusFrame(m, i, z, i);
      SetAndFocusFrame(m, i, boosted, i);
      SetAndFocusFrame(m, i, boosted.(state := Stopped), i);
    }
  }

  lemma {:induction false} LockFrame(m: Manager, id: string)
    ensures Frame(m, LockZone(m, id)) && Frame(m, UnlockZone(m, id))
  {
    hide Refocus, Find;
    var i := Find(m.zones, id);
    FindBound(m.zones, id);
    if i < |m.zones| {
      SetAndFocusFrame(m, i, m.zones[i].(level := Background, state := Frozen, requested := ReqPaused), i);
      SetAndFocusFrame(m, i, m.zones[i].(state := Running, requested := ReqRunning), i);
    }
  }

  lemma {:induction false} MovesFrame(m: Manager, id: string)
    ensures Frame(m, SetActiveZone(m, id)) && Frame(m, SwitchToDefault(m)) && Frame(m, SwitchNotify(m))
  {
    hide FocusInternal;
    FocusFrame(m, Find(m.zones, id));
    FocusFrame(m, Find(m.zones, m.dynamic.defaultId));
    FocusFrame(m, NextToForeground(m));
  }

  lemma SetZoneFocus(m: Manager, i: nat, z: Zone)
    requires NamesInv(m) && FocusInv(m) && i < |m.zones| && z.id == m.zones[i].id
    requires z.state == Frozen ==> z.level == Background
    ensures NamesInv(SetZone(m, i, z)) && AlmostFocused(SetZone(m, i, z))
    ensures Find(SetZone(m, i, z).zones, m.active) == Find(m.zones, m.active)
    ensures z.state == m.zones[i].state && z.level == m.zones[i].level ==> FocusInv(SetZone(m, i, z))
  {
    var n := SetZone(m, i, z);
    KeepNames(m.zones, n.zones);
    FindSame(m.zones, n.zones, m.active);
  }

  // ---------------------------------------------------------------- every handler keeps the focus

  lemma {:induction false} StartKeepsFocus(m: Manager, id: string, ok: bool)
    requires NamesInv(m) && FocusInv(m)
    ensures FocusInv(StartZone(m, id, ok))
    ensures IsRunningAt(StartZone(m, id, ok).zones, Find(m.zones, id)) ==> StartZone(m, id, ok).active == id
  {
    var i := Find(m.zones, id);
    if i < |m.zones| {
      var z := m.zones[i].(requested := ReqRunning);
      SetZoneFocus(m, i, z);
      if z.state == Running {
        FocusKeeps(SetZone(m, i, z), i);
      } else if z.state == Stopped && ok {
        StartStopped(m, i, z.(state := Running, level := Foreground));
      }
    }
  }

  lemma StartStopped(m: Manager, i: nat, up: Zone)
    requires NamesInv(m) && FocusInv(m) && i < |m.zones| && m.zones[i].state == Stopped
    requires up.id == m.zones[i].id && up.state == Running
    ensures FocusInv(FocusInternal(SetZone(m, i, up), i)) && FocusInternal(SetZone(m, i, up), i).active == up.id
  {
    SetZoneFocus(m, i, up);
    FindUnique(m.zones, i);
    assert m.zones[i] in m.zones;
    FocusRestores(SetZone(m, i, up), i);
  }

  lemma {:induction false} ShutdownKeepsFocus(m: Manager, id: string)
    requires NamesInv(m) && FocusInv(m)
    ensures FocusInv(ShutdownZone(m, id, true))
    ensures Find(m.zones, id) < |m.zones| ==> Focused(ShutdownZone(m, id, true))
  {
    hide FocusInv, Refocus, Focused, Find;
    var i := Find(m.zones, id);
    FindBound(m.zones, id);
    if i < |m.zones| {
      var z := m.zones[i].(requested := ReqStopped);
      var down := if z.state == Stopped then z
                  else if z.state == Running then z.(level := Foreground, state := Stopped) else z.(state := Stopped);
      RefocusAfter(m, i, down);
    }
  }

  /** A zone that does not run, refocus included. */
  lemma {:induction false} RefocusAfter(m: Manager, i: nat, z: Zone)
    requires NamesInv(m) && FocusInv(m) && i < |m.zones| && z.id == m.zones[i].id
    requires z.state != Running && (z.state == Frozen ==> z.level == Background)
    ensures FocusInv(Refocus(SetZone(m, i, z))) && Focused(Refocus(SetZone(m, i, z)))
    ensures SameIds(m.zones, Refocus(SetZone(m, i, z)).zones)
  {
    var n := SetZone(m, i, z);
    SetZoneFocus(m, i, z);
    if IsRunningAt(n.zones, Find(n.zones, n.active)) {
      assert n.zones[Find(n.zones, n.active)] in n.zones;
    } else {
      RefocusRestores(n);
    }
  }

  lemma {:induction false} LockKeepsFocus(m: Manager, id: string)
    requires NamesInv(m) && FocusInv(m)
    ensures FocusInv(LockZone(m, id))
    ensures IsRunningAt(m.zones, Find(m.zones, id)) ==> Focused(LockZone(m, id))
  {
    hide FocusInv, Refocus, Focused, Find;
    var i := Find(m.zones, id);
    if IsRunningAt(m.zones, i) {
      FindBound(m.zones, id);
      RefocusAfter(m, i, m.zones[i].(level := Background, state := Frozen, requested := ReqPaused));
    }
  }

  lemma UnlockKeepsFocus(m: Manager, id: string)
    requires NamesInv(m) && FocusInv(m)
    ensures FocusInv(UnlockZone(m, id))
  {
    var i := Find(m.zones, id);
    if i < |m.zones| && m.zones[i].state == Frozen {
      assert m.zones[i] in m.zones;
      SetZoneFocus(m, i, m.zones[i].(state := Running, requested := ReqRunning));
    }
  }

  lemma {:induction false} MovesKeepFocus(m: Manager, id: string)
    requires NamesInv(m) && FocusInv(m)
    ensures FocusInv(SetActiveZone(m, id)) && FocusInv(SwitchToDefault(m)) && FocusInv(SwitchNotify(m))
  {
    hide FocusInternal, FocusInv;
    var i, d, n := Find(m.zones, id), Find(m.zones, m.dynamic.defaultId), NextToForeground(m);
    if IsRunningAt(m.zones, i) { FocusKeeps(m, i); }
    if IsRunningAt(m.zones, d) { FocusKeeps(m, d); }
    if n < |m.zones| { FocusKeeps(m, n); }
  }

  /**
   * When LXC cannot stop the zone, the boost is left behind: the focus
   * invariant survives exactly if the zone was not running in the background.
   */
  lemma FailedShutdown(m: Manager, id: string)
    requires NamesInv(m) && FocusInv(m) && Find(m.zones, id) < |m.zones|
    ensures FocusInv(ShutdownZone(m, id, false))
       <==> !(m.zones[Find(m.zones, id)].state == Running && id != m.active)
  {
    var i := Find(m.zones, id);
    var z := m.zones[i];
    if z.state == Stopped {
      RefocusAfter(m, i, z.(requested := ReqStopped));
    } else {
      var n := ShutdownZone(m, id, false);
      FindSame(m.zones, n.zones, m.active);
      assert n.zones[i].state == Running && id != m.active ==> !FocusInv(n);
    }
  }

  // ---------------------------------------------------------------- the registry

  lemma DefaultUpdated(m: Manager)
    requires NamesInv(m) && m.dynamic.zoneIds == Ids(m.zones) && m.saved == m.dynamic
    requires m.enabled <==> m.zones != []
    ensures RegistryInv(UpdateDefaultId(m)) && UpdateDefaultId(m).zones == m.zones
    ensures UpdateDefaultId(m).active == m.active
  {
    if m.zones != [] {
      assert m.zones[0] in m.zones;
      var d := Find(m.zones, m.dynamic.defaultId);
      if d < |m.zones| { assert m.zones[d] in m.zones; assert Ids(m.zones)[d] == m.dynamic.defaultId; }
      else { assert Ids(m.zones)[0] == m.zones[0].id; }
    }
  }

  /** A creation keeps names, registry and VTs right; at most a stopped zone is appended. */
  lemma CreateKeepsRest(m: Manager, pool: seq<int>, id: string, env: Env)
    requires NamesInv(m) && RegistryInv(m) && VTInv(m, pool)
    ensures var n := CreateZone(m, pool, id, env);
            && NamesInv(n) && RegistryInv(n) && VTInv(n, pool) && n.active == m.active
            && (n == m || exists z: Zone :: z.state == Stopped && n.zones == m.zones + [z])
  {
    hide VTInv, CreateOutcome, NewZone;
    if CreateOutcome(m, pool, id, env) == Done {
      NewZoneFits(m, pool, id, env);
      var z := NewZone(m, pool, id, env);
      var n := Insert(m, z);
      var listed := Saved(n.(dynamic := n.dynamic.(zoneIds := n.dynamic.zoneIds + [id])));
      assert Ids(m.zones + [z]) == Ids(m.zones) + [id];
      DefaultUpdated(listed);
      VTOnlyZones(m.(zones := m.zones + [z]), CreateZone(m, pool, id, env), pool);
    }
  }

  lemma CreateKeeps(m: Manager, pool: seq<int>, id: string, env: Env)
    requires Inv(m, pool)
    ensures Inv(CreateZone(m, pool, id, env), pool)
  {
    hide FocusInv, VTInv, RegistryInv, NamesInv, CreateZone;
    CreateKeepsRest(m, pool, id, env);
    var n := CreateZone(m, pool, id, env);
    if n != m {
      var z: Zone :| z.state == Stopped && n.zones == m.zones + [z];
      AppendKeepsFocus(m, z, n);
    }
  }

  lemma VTOnlyZones(m: Manager, n: Manager, pool: seq<int>)
    requires m.zones == n.zones && VTInv(m, pool)
    ensures VTInv(n, pool)
  {
  }

  /** The new zone has a name of its own and, if it asked for one, a VT of its own. */
  lemma NewZoneFits(m: Manager, pool: seq<int>, id: string, env: Env)
    requires NamesInv(m) && VTInv(m, pool) && CreateOutcome(m, pool, id, env) == Done
    ensures var z := NewZone(m, pool, id, env); var n := m.(zones := m.zones + [z]);
            z.id == id && z.state == Stopped && NamesInv(n) && VTInv(n, pool)
  {
    assert forall z :: z in m.zones ==> z.vt in UsedVTs(m.zones);
  }

  lemma AppendKeepsFocus(m: Manager, z: Zone, n: Manager)
    requires NamesInv(m) && FocusInv(m) && z.state == Stopped
    requires n.zones == m.zones + [z] && n.active == m.active
    ensures FocusInv(n)
  {
    if m.active != "" { FindAppend(m.zones, z, m.active); }
  }

  lemma AppendKeepsLoose(m: Manager, z: Zone, n: Manager)
    requires NamesInv(m) && LooseFocus(m) && z.state == Stopped
    requires n.zones == m.zones + [z] && n.active == m.active
    ensures LooseFocus(n)
  {
    if m.active != "" { FindAppend(m.zones, z, m.active); }
  }

  lemma FindAppend(zs: seq<Zone>, z: Zone, id: string)
    requires Find(zs, id) < |zs|
    ensures Find(zs + [z], id) == Find(zs, id)
  {
    var i, j := Find(zs, id), Find(zs + [z], id);
    assert (zs + [z])[i].id == id;
  }

  /** Erasing the one occurrence of an id. */
  lemma {:induction false} WithoutAt(ids: seq<string>, i: nat)
    requires i < |ids| && forall j, k :: 0 <= j < k < |ids| ==> ids[j] != ids[k]
    ensures Without(ids, ids[i]) == ids[..i] + ids[i + 1..]
  {
    if i == 0 {
      WithoutNone(ids[1..], ids[0]);
    } else {
      WithoutAt(ids[1..], i - 1);
      assert ids[..i] + ids[i + 1..] == [ids[0]] + (ids[1..][..i - 1] + ids[1..][i..]);
    }
  }

  lemma WithoutOne(zs: seq<Zone>, i: nat)
    requires Distinct(zs) && i < |zs|
    ensures Without(Ids(zs), zs[i].id) == Ids(zs[..i] + zs[i + 1..])
  {
    hide Without;
    WithoutAt(Ids(zs), i);
    assert Ids(zs[..i] + zs[i + 1..]) == Ids(zs)[..i] + Ids(zs)[i + 1..];
  }

  lemma {:induction false} WithoutNone(ids: seq<string>, x: string)
    requires x !in ids
    ensures Without(ids, x) == ids
  {
    if ids != [] { WithoutNone(ids[1..], x); }
  }

  /** The manager before the refocus of a destruction. */
  lemma DestroyRefocuses(m: Manager, i: nat, id: string)
    requires NamesInv(m) && i == Find(m.zones, id) && i < |m.zones|
    ensures var n := UpdateDefaultId(Saved(Erased(m, i, id)));
            && DestroyZone(m, id) == Refocus(n) && NamesInv(n)
            && n.zones == m.zones[..i] + m.zones[i + 1..] && n.active == m.active
  {
    hide Find, Refocus, Without;
    RestKept(m, i, []);
  }

  lemma ErasedRegistry(m: Manager, i: nat, id: string)
    requires NamesInv(m) && RegistryInv(m) && i < |m.zones| && m.zones[i].id == id
    ensures RegistryInv(UpdateDefaultId(Saved(Erased(m, i, id))))
  {
    hide Find, Without;
    WithoutOne(m.zones, i);
    RestKept(m, i, []);
    DefaultUpdated(Saved(Erased(m, i, id)));
  }

  lemma RefocusFrame(m: Manager)
    ensures Frame(m, Refocus(m))
  {
    hide Find;
    FocusFrame(m, RefocusTarget(m));
  }

  /** A destruction keeps names, registry and VTs right. */
  lemma DestroyKeepsRest(m: Manager, pool: seq<int>, id: string)
    requires NamesInv(m) && RegistryInv(m) && VTInv(m, pool)
    ensures var n := DestroyZone(m, id); NamesInv(n) && RegistryInv(n) && VTInv(n, pool)
  {
    hide Find, Refocus, UpdateDefaultId, Saved, Erased, NamesInv, RegistryInv, VTInv, Frame;
    var i := Find(m.zones, id);
    FindBound(m.zones, id);
    FindHit(m.zones, id);
    if i < |m.zones| {
      var n := UpdateDefaultId(Saved(Erased(m, i, id)));
      DestroyRefocuses(m, i, id);
      ErasedRegistry(m, i, id);
      RestKept(m, i, pool);
      VTOnlyZones(m.(zones := m.zones[..i] + m.zones[i + 1..]), n, pool);
      RefocusFrame(n);
      FrameKeeps(n, Refocus(n), pool);
    }
  }

  lemma DestroyNothing(m: Manager, id: string)
    requires Find(m.zones, id) == |m.zones|
    ensures DestroyZone(m, id) == m
  {
  }

  lemma {:induction false} DestroyKeeps(m: Manager, pool: seq<int>, id: string)
    requires Inv(m, pool)
    ensures Inv(DestroyZone(m, id), pool)
    ensures Find(m.zones, id) < |m.zones| ==> Focused(DestroyZone(m, id))
  {
    hide Find, FocusInv, Refocus, Focused, RegistryInv, VTInv, NamesInv, UpdateDefaultId, Erased;
    DestroyKeepsRest(m, pool, id);
    var i := Find(m.zones, id);
    FindBound(m.zones, id);
    if i < |m.zones| {
      DestroyRefocuses(m, i, id);
      RestFocus(m, i, UpdateDefaultId(Saved(Erased(m, i, id))));
    }
  }

  lemma RestKept(m: Manager, i: nat, pool: seq<int>)
    requires NamesInv(m) && VTInv(m, pool) && i < |m.zones|
    ensures var n := m.(zones := m.zones[..i] + m.zones[i + 1..]); NamesInv(n) && VTInv(n, pool)
  {
    var rest := m.zones[..i] + m.zones[i + 1..];
    assert forall k :: 0 <= k < |rest| ==> rest[k] == m.zones[if k < i then k else k + 1];
  }

  lemma {:induction false} RestFocus(m: Manager, i: nat, n: Manager)
    requires NamesInv(m) && FocusInv(m) && i < |m.zones|
    requires n.zones == m.zones[..i] + m.zones[i + 1..] && n.active == m.active && NamesInv(n)
    ensures FocusInv(Refocus(n)) && Focused(Refocus(n)) && SameIds(n.zones, Refocus(n).zones)
  {
    assert forall k :: 0 <= k < |n.zones| ==> n.zones[k] == m.zones[if k < i then k else k + 1];
    if IsRunningAt(n.zones, Find(n.zones, n.active)) {
      assert n.zones[Find(n.zones, n.active)] in n.zones;
    } else {
      RefocusRestores(n);
    }
  }

  // ---------------------------------------------------------------- runs

  datatype Event =
    | Start(id: string, lxcStarts: bool)
    | Shutdown(id: string, lxcStops: bool)
    | Lock(id: string)
    | Unlock(id: string)
    | SetActive(id: string)
    | ToDefault
    | Switch
    | Create(id: string, env: Env)
    | Destroy(id: string)

  function Handle(m: Manager, pool: seq<int>, e: Event): Manager {
    match e
    case Start(id, ok) => StartZone(m, id, ok)
    case Shutdown(id, ok) => ShutdownZone(m, id, ok)
    case Lock(id) => LockZone(m, id)
    case Unlock(id) => UnlockZone(m, id)
    case SetActive(id) => SetActiveZone(m, id)
    case ToDefault => SwitchToDefault(m)
    case Switch => SwitchNotify(m)
    case Create(id, env) => CreateZone(m, pool, id, env)
    case Destroy(id) => DestroyZone(m, id)
  }

  function HandleAll(m: Manager, pool: seq<int>, es: seq<Event>): Manager
    decreases es
  {
    if es == [] then m else HandleAll(Handle(m, pool, es[0]), pool, es[1..])
  }

  /** The manager right after start(): the configured zones, stopped, and an updated default. */
  function StartUp(zs: seq<Zone>, defaultId: string, enabledBefore: bool): Manager {
    var d := Dynamic(Ids(zs), defaultId);
    UpdateDefaultId(Manager(zs, "", d, d, enabledBefore || zs != []))
  }

  /** A loaded configuration that obeys the rules createZone enforces. */
  predicate GoodConfig(zs: seq<Zone>, enabledBefore: bool, pool: seq<int>) {
    && Distinct(zs) && (forall z :: z in zs ==> NameOk(z.id) && z.state == Stopped)
    && (zs == [] ==> !enabledBefore)
    && VTInv(StartUp(zs, "", enabledBefore), pool)
  }

  lemma StartUpInv(zs: seq<Zone>, defaultId: string, enabledBefore: bool, pool: seq<int>)
    requires GoodConfig(zs, enabledBefore, pool)
    ensures Inv(StartUp(zs, defaultId, enabledBefore), pool)
  {
    var d := Dynamic(Ids(zs), defaultId);
    DefaultUpdated(Manager(zs, "", d, d, enabledBefore || zs != []));
    assert forall i :: 0 <= i < |zs| ==> zs[i] in zs;
  }

  /** LXC refuses to stop a running zone that is not the active one. */
  predicate LeavesBoost(m: Manager, e: Event) {
    e.Shutdown? && !e.lxcStops && IsRunningAt(m.zones, Find(m.zones, e.id)) && e.id != m.active
  }

  /** Names, registry and VTs survive every event, and the frame of most. */
  lemma HandleKeepsRest(m: Manager, pool: seq<int>, e: Event)
    requires NamesInv(m) && RegistryInv(m) && VTInv(m, pool)
    ensures var n := Handle(m, pool, e); NamesInv(n) && RegistryInv(n) && VTInv(n, pool)
  {
    hide StartZone, ShutdownZone, LockZone, UnlockZone, SetActiveZone, SwitchToDefault, SwitchNotify, CreateZone,
      DestroyZone, RegistryInv, VTInv, NamesInv, Frame;
    var n := Handle(m, pool, e);
    match e {
      case Start(id, ok) => StartFrame(m, id, ok); FrameKeeps(m, n, pool);
      case Shutdown(id, ok) => ShutdownFrame(m, id, ok); FrameKeeps(m, n, pool);
      case Lock(id) => LockFrame(m, id); FrameKeeps(m, n, pool);
      case Unlock(id) => LockFrame(m, id); FrameKeeps(m, n, pool);
      case SetActive(id) => MovesFrame(m, id); FrameKeeps(m, n, pool);
      case ToDefault => MovesFrame(m, ""); FrameKeeps(m, n, pool);
      case Switch => MovesFrame(m, ""); FrameKeeps(m, n, pool);
      case Create(id, env) => CreateKeepsRest(m, pool, id, env);
      case Destroy(id) => DestroyKeepsRest(m, pool, id);
    }
  }

  /** A handler keeps the whole invariant exactly if it is not a shutdown that leaves a boost behind. */
  lemma HandleKeeps(m: Manager, pool: seq<int>, e: Event)
    requires Inv(m, pool)
    ensures Inv(Handle(m, pool, e), pool) <==> !LeavesBoost(m, e)
  {
    hide StartZone, ShutdownZone, LockZone, UnlockZone, SetActiveZone, SwitchToDefault, SwitchNotify, CreateZone,
      DestroyZone, FocusInv, RegistryInv, VTInv, NamesInv;
    HandleKeepsRest(m, pool, e);
    match e {
      case Start(id, ok) => StartKeepsFocus(m, id, ok);
      case Shutdown(id, ok) =>
        ShutdownKeepsFocus(m, id);
        RefusedShutdown(m, id);
      case Lock(id) => LockKeepsFocus(m, id);
      case Unlock(id) => UnlockKeepsFocus(m, id);
      case SetActive(id) => MovesKeepFocus(m, id);
      case ToDefault => MovesKeepFocus(m, "");
      case Switch => MovesKeepFocus(m, "");
      case Create(id, env) => CreateKeeps(m, pool, id, env);
      case Destroy(id) => DestroyKeeps(m, pool, id);
    }
  }

  lemma RefusedShutdown(m: Manager, id: string)
    requires NamesInv(m) && FocusInv(m)
    ensures FocusInv(ShutdownZone(m, id, false)) <==> !LeavesBoost(m, Shutdown(id, false))
  {
    hide FocusInv;
    if Find(m.zones, id) < |m.zones| { FailedShutdown(m, id); }
  }

  /** No shutdown of the run leaves a boost behind. */
  predicate NoBoosts(m: Manager, pool: seq<int>, es: seq<Event>)
    decreases es
  {
    es == [] || (!LeavesBoost(m, es[0]) && NoBoosts(Handle(m, pool, es[0]), pool, es[1..]))
  }

  /** Names, focus, registry and VTs are right after every run in which no refused shutdown leaves a boost behind. */
  lemma {:induction false} EveryRunKeeps(m: Manager, pool: seq<int>, es: seq<Event>)
    requires Inv(m, pool) && NoBoosts(m, pool, es)
    ensures Inv(HandleAll(m, pool, es), pool)
    decreases es
  {
    if es != [] {
      HandleKeeps(m, pool, es[0]);
      EveryRunKeeps(Handle(m, pool, es[0]), pool, es[1..]);
    }
  }

  // ---------------------------------------------------------------- all runs, refused shutdowns included

  lemma LooseFocusTo(m: Manager, i: nat)
    requires NamesInv(m) && LooseFocus(m) && IsRunningAt(m.zones, i)
    ensures var n := FocusInternal(m, i); LooseFocus(n) && (n.active != m.active ==> FocusInv(n))
  {
    if m.zones[i].id != m.active { FocusRestores(m, i); }
  }

  lemma LooseRefocus(m: Manager)
    requires NamesInv(m) && AlmostFocused(m)
    requires IsRunningAt(m.zones, Find(m.zones, m.active)) ==> LooseFocus(m)
    ensures var n := Refocus(m); LooseFocus(n) && (n.active != m.active ==> FocusInv(n))
  {
    if !IsRunningAt(m.zones, Find(m.zones, m.active)) { RefocusRestores(m); }
  }

  /** A zone changes but for its id; the active one stays as it is or goes behind a refocus. */
  lemma LooseSet(m: Manager, i: nat, z: Zone)
    requires NamesInv(m) && LooseFocus(m) && i < |m.zones| && z.id == m.zones[i].id
    requires z.state == Frozen ==> z.level == Background
    ensures NamesInv(SetZone(m, i, z)) && AlmostFocused(SetZone(m, i, z))
    ensures z.state == Running && (z.id == m.active ==> z.level == Foreground) ==> LooseFocus(SetZone(m, i, z))
    ensures z.state != Running && z.id != m.active ==> LooseFocus(SetZone(m, i, z))
    ensures IsRunningAt(SetZone(m, i, z).zones, Find(SetZone(m, i, z).zones, m.active)) && z.state != Running ==>
              LooseFocus(SetZone(m, i, z))
  {
    var n := SetZone(m, i, z);
    KeepNames(m.zones, n.zones);
    FindSame(m.zones, n.zones, m.active);
    FindUnique(m.zones, i);
    assert m.zones[i] in m.zones;
  }

  /** The active zone runs, so a zone that does not is not active. */
  lemma NotRunningNotActive(m: Manager, i: nat)
    requires NamesInv(m) && LooseFocus(m) && i < |m.zones| && m.zones[i].state != Running
    ensures m.zones[i].id != m.active
  {
    FindUnique(m.zones, i);
    assert m.zones[i] in m.zones;
  }

  /** The loose focus is kept, and a change of the active zone makes it the whole invariant. */
  predicate LooselyKept(m: Manager, n: Manager) {
    LooseFocus(n) && (n.active != m.active ==> FocusInv(n))
  }

  lemma StartKeepsLoose(m: Manager, id: string, ok: bool)
    requires NamesInv(m) && LooseFocus(m)
    ensures LooselyKept(m, StartZone(m, id, ok))
  {
    hide FocusInternal, FocusInv;
    var i := Find(m.zones, id);
    if i < |m.zones| {
      var z := m.zones[i].(requested := ReqRunning);
      LooseSet(m, i, z);
      if z.state == Running {
        LooseFocusTo(SetZone(m, i, z), i);
      } else {
        NotRunningNotActive(m, i);
        var up := z.(state := Running, level := Foreground);
        LooseSet(m, i, up);
        LooseFocusTo(SetZone(m, i, up), i);
      }
    }
  }

  lemma ShutdownKeepsLoose(m: Manager, id: string, ok: bool)
    requires NamesInv(m) && LooseFocus(m)
    ensures LooselyKept(m, ShutdownZone(m, id, ok))
  {
    hide Refocus, FocusInv, Find;
    var i := Find(m.zones, id);
    FindBound(m.zones, id);
    if i < |m.zones| {
      var z := m.zones[i].(requested := ReqStopped);
      var boosted := if z.state == Running then z.(level := Foreground) else z;
      if z.state != Running { NotRunningNotActive(m, i); }
      LooseSet(m, i, boosted);
      LooseSet(m, i, boosted.(state := Stopped));
      LooseRefocus(SetZone(m, i, boosted.(state := Stopped)));
      if z.state == Stopped { LooseRefocus(SetZone(m, i, z)); }
    }
  }

  lemma LockKeepsLoose(m: Manager, id: string)
    requires NamesInv(m) && LooseFocus(m)
    ensures LooselyKept(m, LockZone(m, id)) && LooselyKept(m, UnlockZone(m, id))
  {
    hide Refocus, FocusInv;
    var i := Find(m.zones, id);
    if i < |m.zones| {
      var frozen := m.zones[i].(level := Background, state := Frozen, requested := ReqPaused);
      LooseSet(m, i, frozen);
      LooseRefocus(SetZone(m, i, frozen));
      if m.zones[i].state == Frozen {
        NotRunningNotActive(m, i);
        LooseSet(m, i, m.zones[i].(state := Running, requested := ReqRunning));
      }
    }
  }

  lemma MovesKeepLoose(m: Manager, id: string)
    requires NamesInv(m) && LooseFocus(m)
    ensures LooselyKept(m, SetActiveZone(m, id)) && LooselyKept(m, SwitchToDefault(m)) && LooselyKept(m, SwitchNotify(m))
  {
    hide FocusInternal, LooseFocus, FocusInv;
    var i, d, n := Find(m.zones, id), Find(m.zones, m.dynamic.defaultId), NextToForeground(m);
    if IsRunningAt(m.zones, i) { LooseFocusTo(m, i); }
    if IsRunningAt(m.zones, d) { LooseFocusTo(m, d); }
    if n < |m.zones| { LooseFocusTo(m, n); }
  }

  lemma CreateKeepsLoose(m: Manager, pool: seq<int>, id: string, env: Env)
    requires LooseInv(m, pool)
    ensures LooselyKept(m, CreateZone(m, pool, id, env))
  {
    hide LooseFocus, FocusInv, VTInv, RegistryInv, NamesInv, CreateZone;
    CreateKeepsRest(m, pool, id, env);
    var n := CreateZone(m, pool, id, env);
    if n != m {
      var z: Zone :| z.state == Stopped && n.zones == m.zones + [z];
      AppendKeepsLoose(m, z, n);
    }
  }

  lemma RestLoose(m: Manager, i: nat, n: Manager)
    requires NamesInv(m) && LooseFocus(m) && i < |m.zones|
    requires n.zones == m.zones[..i] + m.zones[i + 1..] && n.active == m.active && NamesInv(n)
    ensures AlmostFocused(n) && (IsRunningAt(n.zones, Find(n.zones, n.active)) ==> LooseFocus(n))
  {
    assert forall k :: 0 <= k < |n.zones| ==> n.zones[k] == m.zones[if k < i then k else k + 1];
  }

  lemma DestroyKeepsLoose(m: Manager, id: string)
    requires NamesInv(m) && LooseFocus(m)
    ensures LooselyKept(m, DestroyZone(m, id))
  {
    hide Find, LooseFocus, FocusInv, Refocus, NamesInv, UpdateDefaultId, Erased, AlmostFocused;
    var i := Find(m.zones, id);
    FindBound(m.zones, id);
    if i < |m.zones| {
      DestroyRefocuses(m, i, id);
      var n := UpdateDefaultId(Saved(Erased(m, i, id)));
      RestLoose(m, i, n);
      LooseRefocus(n);
    }
  }

  /** Every handler keeps the loose invariant; one that changes the active zone ends with the whole focus invariant. */
  lemma HandleKeepsLoose(m: Manager, pool: seq<int>, e: Event)
    requires LooseInv(m, pool)
    ensures LooseInv(Handle(m, pool, e), pool) && LooselyKept(m, Handle(m, pool, e))
  {
    hide StartZone, ShutdownZone, LockZone, UnlockZone, SetActiveZone, SwitchToDefault, SwitchNotify, CreateZone,
      DestroyZone, LooseFocus, FocusInv, RegistryInv, VTInv, NamesInv;
    HandleKeepsRest(m, pool, e);
    match e {
      case Start(id, ok) => StartKeepsLoose(m, id, ok);
      case Shutdown(id, ok) => ShutdownKeepsLoose(m, id, ok);
      case Lock(id) => LockKeepsLoose(m, id);
      case Unlock(id) => LockKeepsLoose(m, id);
      case SetActive(id) => MovesKeepLoose(m, id);
      case ToDefault => MovesKeepLoose(m, "");
      case Switch => MovesKeepLoose(m, "");
      case Create(id, env) => CreateKeepsLoose(m, pool, id, env);
      case Destroy(id) => DestroyKeepsLoose(m, id);
    }
  }

  /**
   * In every run, refused shutdowns included, the active zone runs in the foreground, paused
   * zones are behind, and names, registry and VTs are right.
   */
  lemma {:induction false} EveryRunKeepsLoose(m: Manager, pool: seq<int>, es: seq<Event>)
    requires LooseInv(m, pool)
    ensures LooseInv(HandleAll(m, pool, es), pool)
    decreases es
  {
    if es != [] {
      HandleKeepsLoose(m, pool, es[0]);
      EveryRunKeepsLoose(Handle(m, pool, es[0]), pool, es[1..]);
    }
  }

  /** In every run, the next change of the active zone brings the whole invariant back. */
  lemma {:induction false} FocusChangeHeals(m: Manager, pool: seq<int>, es: seq<Event>, e: Event)
    requires LooseInv(m, pool)
    requires var n := HandleAll(m, pool, es); Handle(n, pool, e).active != n.active
    ensures Inv(Handle(HandleAll(m, pool, es), pool, e), pool)
  {
    hide Handle, HandleAll, LooseFocus, FocusInv;
    EveryRunKeepsLoose(m, pool, es);
    HandleKeepsLoose(HandleAll(m, pool, es), pool, e);
  }

  lemma StrictIsLoose(m: Manager, pool: seq<int>)
    requires Inv(m, pool)
    ensures LooseInv(m, pool)
  {
  }

  /** Two running zones, the first active; LXC refuses to stop the second, which stays in the foreground beside it. */
  lemma BoostLeftBehind()
    ensures var a, b := Zone("a", Running, Foreground, ReqRunning, -1, false, false),
                        Zone("b", Running, Background, ReqRunning, -1, false, false);
            var d := Dynamic(["a", "b"], "a");
            var m := Manager([a, b], "a", d, d, true);
            Inv(m, []) && LeavesBoost(m, Shutdown("b", false)) && !Inv(Handle(m, [], Shutdown("b", false)), [])
  {
    var a, b := Zone("a", Running, Foreground, ReqRunning, -1, false, false),
                Zone("b", Running, Background, ReqRunning, -1, false, false);
    var d := Dynamic(["a", "b"], "a");
    var m := Manager([a, b], "a", d, d, true);
    assert Ids(m.zones) == ["a", "b"];
    assert "a" != HOST_ID && "b" != HOST_ID && "a" !in PROHIBITED && "b" !in PROHIBITED by {
      assert |HOST_ID| == 4 && |PROHIBITED[0]| == 7 && |PROHIBITED[1]| == 16;
    }
    FindUnique(m.zones, 0);
    FindUnique(m.zones, 1);
    HandleKeeps(m, [], Shutdown("b", false));
  }

  /** Shutting down, locking or destroying a zone ends in a refocus: some zone is active if any runs. */
  lemma {:induction false} RefocusingHandlers(m: Manager, pool: seq<int>, id: string)
    requires Inv(m, pool) && Find(m.zones, id) < |m.zones|
    ensures Focused(ShutdownZone(m, id, true)) && Focused(DestroyZone(m, id))
    ensures IsRunningAt(m.zones, Find(m.zones, id)) ==> Focused(LockZone(m, id))
  {
    ShutdownKeepsFocus(m, id);
    LockKeepsFocus(m, id);
    DestroyKeeps(m, pool, id);
  }

  // ---------------------------------------------------------------- what each handler does

  /** Ids, run states and requests are the same; levels may differ. */
  predicate SameRun(a: seq<Zone>, b: seq<Zone>) {
    |a| == |b| && forall j :: 0 <= j < |a| ==> a[j].id == b[j].id && a[j].state == b[j].state && a[j].requested == b[j].requested
  }

  /** The same, except for zone i. */
  predicate OthersKeep(a: seq<Zone>, b: seq<Zone>, i: nat) {
    |a| == |b| && forall j :: 0 <= j < |a| && j != i ==>
      a[j].id == b[j].id && a[j].state == b[j].state && a[j].requested == b[j].requested
  }

  /** Focusing changes levels and the active id only; a running zone gets to be active and in the foreground. */
  lemma FocusEffect(m: Manager, i: nat)
    requires i <= |m.zones|
    ensures SameRun(m.zones, FocusInternal(m, i).zones)
    ensures i == |m.zones| ==> FocusInternal(m, i).active == ""
    ensures i < |m.zones| && m.zones[i].state == Running ==> FocusInternal(m, i).active == m.zones[i].id
    ensures i < |m.zones| && m.zones[i].state == Running && m.zones[i].id != m.active ==>
              FocusInternal(m, i).zones[i].level == Foreground
  {
  }

  /** Refocusing keeps a running active zone; else the default zone gets the focus if it runs, else the first running zone, else the host. */
  lemma RefocusEffect(m: Manager)
    requires NamesInv(m)
    ensures var n := Refocus(m);
            && SameRun(m.zones, n.zones)
            && (forall i :: IsRunningIdAt(m, i, m.active) ==> n == m)
            && ((forall i :: !IsRunningIdAt(m, i, m.active)) ==>
                  && (forall i :: IsRunningIdAt(m, i, m.dynamic.defaultId) ==> n.active == m.dynamic.defaultId)
                  && ((forall i :: !IsRunningIdAt(m, i, m.dynamic.defaultId)) ==>
                        n.active == if FirstRunning(m.zones) < |m.zones| then m.zones[FirstRunning(m.zones)].id else ""))
  {
    hide FocusInternal;
    FocusEffect(m, RefocusTarget(m));
    forall i | IsRunningIdAt(m, i, m.active) ensures Find(m.zones, m.active) == i { FindUnique(m.zones, i); }
    forall i | IsRunningIdAt(m, i, m.dynamic.defaultId) ensures Find(m.zones, m.dynamic.defaultId) == i { FindUnique(m.zones, i); }
    var a, d := Find(m.zones, m.active), Find(m.zones, m.dynamic.defaultId);
    assert IsRunningAt(m.zones, a) ==> IsRunningIdAt(m, a, m.active);
    assert IsRunningAt(m.zones, d) ==> IsRunningIdAt(m, d, m.dynamic.defaultId);
  }

  predicate IsRunningIdAt(m: Manager, i: int, id: string) {
    0 <= i < |m.zones| && m.zones[i].state == Running && m.zones[i].id == id
  }

  /** A start: the request is recorded, a stopped zone that LXC starts runs, and a running zone is active. */
  lemma StartEffect(m: Manager, i: nat, lxcStarts: bool)
    requires NamesInv(m) && i < |m.zones|
    ensures var n, z := StartZone(m, m.zones[i].id, lxcStarts), m.zones[i];
            && OthersKeep(m.zones, n.zones, i) && n.zones[i].id == z.id && n.zones[i].requested == ReqRunning
            && (if z.state == Running || (z.state == Stopped && lxcStarts)
                then n.zones[i].state == Running && n.active == z.id
                else n.zones[i].state == z.state && n.active == m.active)
  {
    hide FocusInternal;
    FindUnique(m.zones, i);
    var z := m.zones[i].(requested := ReqRunning);
    FocusEffect(SetZone(m, i, z), i);
    FocusEffect(SetZone(m, i, z.(state := Running, level := Foreground)), i);
  }

  /** A shutdown: the request is recorded, and the zone is stopped and not active unless LXC refuses; then nothing else moves. */
  lemma ShutdownEffect(m: Manager, i: nat, lxcStops: bool)
    requires NamesInv(m) && i < |m.zones|
    ensures var n, z := ShutdownZone(m, m.zones[i].id, lxcStops), m.zones[i];
            && OthersKeep(m.zones, n.zones, i) && n.zones[i].id == z.id && n.zones[i].requested == ReqStopped
            && (if z.state == Stopped || lxcStops
                then n.zones[i].state == Stopped && n.active != z.id
                else n.zones[i].state == z.state && n.active == m.active)
  {
    hide Refocus;
    FindUnique(m.zones, i);
    var z := m.zones[i].(requested := ReqStopped);
    var boosted := if z.state == Running then z.(level := Foreground) else z;
    NotActiveAfter(m, i, z);
    NotActiveAfter(m, i, boosted.(state := Stopped));
  }

  /** The same for whatever zone has the id. */
  lemma ShutdownSays(m: Manager, id: string, lxcStops: bool)
    requires NamesInv(m)
    ensures var n := ShutdownZone(m, id, lxcStops);
            && |n.zones| == |m.zones|
            && forall i :: 0 <= i < |m.zones| && n.zones[i].id == id ==>
                 n.zones[i].requested == ReqStopped && (lxcStops ==> n.zones[i].state == Stopped && n.active != id)
  {
    hide ShutdownZone, NamesInv;
    ShutdownFrame(m, id, lxcStops);
    forall i | 0 <= i < |m.zones| && m.zones[i].id == id
      ensures var n := ShutdownZone(m, id, lxcStops); n.zones[i].requested == ReqStopped
      ensures var n := ShutdownZone(m, id, lxcStops); lxcStops ==> n.zones[i].state == Stopped && n.active != id
    {
      ShutdownEffect(m, i, lxcStops);
    }
  }

  /** A zone that does not run loses the focus at the refocus. */
  lemma NotActiveAfter(m: Manager, i: nat, z: Zone)
    requires NamesInv(m) && i < |m.zones| && z.id == m.zones[i].id
    ensures var n := Refocus(SetZone(m, i, z));
            && OthersKeep(m.zones, n.zones, i)
            && n.zones[i].id == z.id && n.zones[i].state == z.state && n.zones[i].requested == z.requested
            && (z.state != Running ==> n.active != z.id)
            && (z.state == Frozen ==> n.zones[i].level == z.level)
  {
    var s := SetZone(m, i, z);
    KeepNames(m.zones, s.zones);
    var a, t := Find(s.zones, s.active), RefocusTarget(s);
    FindUnique(s.zones, i);
    assert m.zones[i] in m.zones && z.id != "";
    FocusEffect(s, t);
    assert t < |s.zones| && t != i ==> s.zones[t].id != z.id;
  }

  /** A lock of a running zone: frozen, behind, so requested, and not active. Another zone is not locked. */
  lemma LockEffect(m: Manager, i: nat)
    requires NamesInv(m) && i < |m.zones|
    ensures var n, z := LockZone(m, m.zones[i].id), m.zones[i];
            if z.state != Running then n == m
            else
              && OthersKeep(m.zones, n.zones, i) && n.zones[i].id == z.id && n.active != z.id
              && n.zones[i].state == Frozen && n.zones[i].level == Background && n.zones[i].requested == ReqPaused
  {
    hide Refocus;
    FindUnique(m.zones, i);
    NotActiveAfter(m, i, m.zones[i].(level := Background, state := Frozen, requested := ReqPaused));
  }

  /** An unlock of a frozen zone: it runs, and is so requested; the focus stays. Another zone is not unlocked. */
  lemma UnlockEffect(m: Manager, i: nat)
    requires NamesInv(m) && i < |m.zones|
    ensures var n, z := UnlockZone(m, m.zones[i].id), m.zones[i];
            if z.state != Frozen then n == m
            else
              && OthersKeep(m.zones, n.zones, i) && n.zones[i].id == z.id && n.active == m.active
              && n.zones[i].state == Running && n.zones[i].level == z.level && n.zones[i].requested == ReqRunning
  {
    FindUnique(m.zones, i);
  }

  /** Set-active makes a running zone active and refuses another; run states stay. */
  lemma SetActiveEffect(m: Manager, i: nat)
    requires NamesInv(m) && i < |m.zones|
    ensures var n, z := SetActiveZone(m, m.zones[i].id), m.zones[i];
            if z.state != Running then n == m else SameRun(m.zones, n.zones) && n.active == z.id
  {
    hide FocusInternal;
    FindUnique(m.zones, i);
    FocusEffect(m, i);
  }

  /** The switch to the default focuses it exactly when the active zone allows that and the default zone runs. */
  lemma ToDefaultEffect(m: Manager)
    requires NamesInv(m)
    ensures var n := SwitchToDefault(m);
            if (exists a, d :: 0 <= a < |m.zones| && m.zones[a].id == m.active && m.zones[a].switchAllowed
                  && IsRunningIdAt(m, d, m.dynamic.defaultId))
            then SameRun(m.zones, n.zones) && n.active == m.dynamic.defaultId
            else n == m
  {
    hide FocusInternal;
    var a, d := Find(m.zones, m.active), Find(m.zones, m.dynamic.defaultId);
    forall k | 0 <= k < |m.zones| && m.zones[k].id == m.active ensures a == k { FindUnique(m.zones, k); }
    forall k | IsRunningIdAt(m, k, m.dynamic.defaultId) ensures d == k { FindUnique(m.zones, k); }
    assert IsRunningAt(m.zones, d) ==> IsRunningIdAt(m, d, m.dynamic.defaultId);
    FocusEffect(m, d);
  }

  /** With no zone active, a switch notification focuses the first running zone, if there is one. */
  lemma FirstSwitchEffect(m: Manager)
    requires NamesInv(m) && forall i :: 0 <= i < |m.zones| ==> m.zones[i].id != m.active
    ensures var n, r := SwitchNotify(m), FirstRunning(m.zones);
            if r == |m.zones| then n == m else SameRun(m.zones, n.zones) && n.active == m.zones[r].id
  {
    hide FocusInternal;
    var r := FirstRunning(m.zones);
    if r < |m.zones| { FocusEffect(m, r); }
  }

  /** Calls with an unknown id change nothing. */
  lemma UnknownIdEffect(m: Manager, id: string, ok: bool)
    requires forall i :: 0 <= i < |m.zones| ==> m.zones[i].id != id
    ensures StartZone(m, id, ok) == ShutdownZone(m, id, ok) == LockZone(m, id) == UnlockZone(m, id)
         == SetActiveZone(m, id) == DestroyZone(m, id) == m
  {
  }

  /** A creation succeeds exactly when every check passes ... */
  lemma CreatedExactly(m: Manager, pool: seq<int>, id: string, env: Env)
    ensures CreateOutcome(m, pool, id, env) == Done <==>
              && id != "" && (forall c :: c in id ==> '0' <= c <= '9' || 'A' <= c <= 'Z' || 'a' <= c <= 'z')
              && id != "enabled" && id != "lxc-monitord.log" && id != "host"
              && (forall z :: z in m.zones ==> z.id != id)
              && !env.pathExists && env.imageOk && env.configOk && env.zoneOk
              && (env.templateVT >= 0 && pool != [] ==> exists v :: v in pool && forall z :: z in m.zones ==> z.vt != v)
  {
    hide SmallestFree;
    var used := UsedVTs(m.zones);
    assert forall z :: z in m.zones ==> z.vt in used;
    var i := Find(m.zones, id);
    assert i < |m.zones| ==> m.zones[i] in m.zones;
    assert (forall z :: z in m.zones ==> z.id != id) ==> i == |m.zones|;
    assert PROHIBITED[0] == "enabled" && PROHIBITED[1] == "lxc-monitord.log";
  }

  /** The place of an outcome in the order of the checks. */
  function Stage(o: Created): nat {
    match o
    case InvalidName => 0
    case NameNotAllowed => 1
    case AlreadyExists => 2
    case PathExists => 3
    case ImageFailed => 4
    case ConfigFailed => 5
    case NoFreeVT => 6
    case ReservedId => 7
    case ZoneFailed => 8
    case Done => 9
  }

  /** ... and else says why: its own check fails, and those before it passed. */
  lemma CreationRefused(m: Manager, pool: seq<int>, id: string, env: Env)
    ensures var o := CreateOutcome(m, pool, id, env);
            && (id == "" ==> o == InvalidName)
            && (o == InvalidName ==> id == "" || exists c :: c in id && !AlnumChar(c))
            && (o == NameNotAllowed ==> id in PROHIBITED)
            && (o == AlreadyExists ==> exists z :: z in m.zones && z.id == id)
            && (o == PathExists ==> env.pathExists)
            && (o == ImageFailed ==> !env.imageOk)
            && (o == ConfigFailed ==> !env.configOk)
            && (o == ReservedId ==> id == "host")
            && (o == ZoneFailed ==> !env.zoneOk)
            && (Stage(o) > 0 ==> id != "" && Alnum(id))
            && (Stage(o) > 1 ==> id !in PROHIBITED)
            && (Stage(o) > 2 ==> forall z :: z in m.zones ==> z.id != id)
            && (Stage(o) > 3 ==> !env.pathExists)
            && (Stage(o) > 4 ==> env.imageOk)
            && (Stage(o) > 5 ==> env.configOk)
            && (Stage(o) > 7 ==> id != "host")
  {
    hide SmallestFree;
    var i := Find(m.zones, id);
    assert i < |m.zones| ==> m.zones[i] in m.zones;
  }

  /** A creation appends one stopped zone, or changes nothing if it is refused. */
  lemma CreateEffect(m: Manager, pool: seq<int>, id: string, env: Env)
    ensures var n := CreateZone(m, pool, id, env);
            if CreateOutcome(m, pool, id, env) != Done then n == m
            else
              && |n.zones| == |m.zones| + 1 && n.zones[..|m.zones|] == m.zones && n.active == m.active
              && var z := n.zones[|m.zones|];
                 && z.id == id && z.state == Stopped && z.requested == ReqStopped && z.switchAllowed == env.switchAllowed
                 && (z.wantsVT <==> env.templateVT >= 0)
                 && (env.templateVT < 0 ==> z.vt == env.templateVT)
                 && (env.templateVT >= 0 && pool == [] ==> z.vt == -1)
  {
    hide Find, SmallestFree;
  }

  /** A destruction takes that zone out and leaves the others in order, with their run states. */
  lemma DestroyEffect(m: Manager, i: nat)
    requires NamesInv(m) && i < |m.zones|
    ensures var n := DestroyZone(m, m.zones[i].id);
            && SameRun(m.zones[..i] + m.zones[i + 1..], n.zones)
            && forall z :: z in n.zones ==> z.id != m.zones[i].id
  {
    hide Refocus, UpdateDefaultId, Erased, DestroyZone, NamesInv;
    NamesFindUnique(m, i);
    var id := m.zones[i].id;
    DestroyRefocuses(m, i, id);
    RefocusEffect(UpdateDefaultId(Saved(Erased(m, i, id))));
    RestLacks(m, i, DestroyZone(m, id).zones);
  }

  lemma NamesFindUnique(m: Manager, i: nat)
    requires NamesInv(m) && i < |m.zones|
    ensures Find(m.zones, m.zones[i].id) == i
  {
    FindUnique(m.zones, i);
  }

  lemma RestLacks(m: Manager, i: nat, zs: seq<Zone>)
    requires NamesInv(m) && i < |m.zones| && SameRun(m.zones[..i] + m.zones[i + 1..], zs)
    ensures forall z :: z in zs ==> z.id != m.zones[i].id
  {
    var rest := m.zones[..i] + m.zones[i + 1..];
    forall k | 0 <= k < |zs| ensures zs[k].id != m.zones[i].id {
      assert zs[k].id == rest[k].id == m.zones[if k < i then k else k + 1].id;
    }
  }

  /** The update leaves a default id that names a zone alone, and else takes the first zone. */
  lemma DefaultKept(m: Manager)
    ensures var n := UpdateDefaultId(m);
            && n.zones == m.zones && n.active == m.active && n.dynamic.zoneIds == m.dynamic.zoneIds
            && ((exists z :: z in m.zones && z.id == m.dynamic.defaultId) ==> n == m)
            && (m.zones != [] && (forall z :: z in m.zones ==> z.id != m.dynamic.defaultId) ==>
                  n.dynamic.defaultId == m.zones[0].id)
            && (m.zones == [] ==> n.dynamic.defaultId == "")
  {
    var i := Find(m.zones, m.dynamic.defaultId);
    assert i < |m.zones| ==> m.zones[i] in m.zones;
    if z :| z in m.zones && z.id == m.dynamic.defaultId {
      var k :| 0 <= k < |m.zones| && m.zones[k] == z;
    }
  }

  // ---------------------------------------------------------------- virtual terminals

  /** A creation that reaches the VT choice lacks a VT exactly when the pool is used up. */
  lemma NoFreeVTExactly(m: Manager, pool: seq<int>, id: string, env: Env)
    requires id != "" && Alnum(id) && id !in PROHIBITED && Find(m.zones, id) == |m.zones|
    requires !env.pathExists && env.imageOk && env.configOk && env.templateVT >= 0 && pool != []
    ensures CreateOutcome(m, pool, id, env) == NoFreeVT
       <==> forall v :: v in pool ==> exists z :: z in m.zones && z.vt == v
  {
    if forall v :: v in pool ==> v in UsedVTs(m.zones) {
      forall v | v in pool ensures exists z :: z in m.zones && z.vt == v { assert v in UsedVTs(m.zones); }
    }
  }

  /** The new zone gets the smallest VT no zone uses. */
  lemma NewZoneVT(m: Manager, pool: seq<int>, id: string, env: Env)
    requires LooseInv(m, pool) && CreateOutcome(m, pool, id, env) == Done && env.templateVT >= 0 && pool != []
    ensures var n := CreateZone(m, pool, id, env);
            && |n.zones| == |m.zones| + 1 && n.zones[..|m.zones|] == m.zones && n.zones[|m.zones|].id == id
            && var vt := n.zones[|m.zones|].vt;
               && vt in pool && (forall z :: z in m.zones ==> z.vt != vt)
               && (forall w :: w in pool && w < vt ==> exists z :: z in m.zones && z.vt == w)
  {
    hide LooseFocus, NamesInv, RegistryInv, VTInv, Find, Alnum;
    var vt := NewVT(m, pool, env.templateVT);
    assert forall z :: z in m.zones ==> z.vt in UsedVTs(m.zones);
    forall w | w in pool && w < vt ensures exists z :: z in m.zones && z.vt == w { assert w in UsedVTs(m.zones); }
  }

  /** The text that stands for ~IP~ in a zone's addresses: an unsigned sum, printed. */
  function ThirdOctet(vt: int): string {
    T.ToString((ZONE_IP_BASE_THIRD_OCTET + vt) % 0x1_0000_0000)
  }

  /** The octet is the VT above one hundred, in decimal. */
  lemma OctetMeans(vt: int)
    requires -100 <= vt < 0x8000_0000
    ensures T.ParseNum(ThirdOctet(vt)) == Some(100 + vt)
  {
    hide T.ToString, T.ParseNum;
    T.ParsePrinted(100 + vt);
  }

  /** An address template, cut at every ~IP~, filled in. */
  function Address(pieces: seq<string>, octet: string): string
    requires pieces != []
  {
    if |pieces| == 1 then pieces[0] else pieces[0] + octet + Address(pieces[1..], octet)
  }

  predicate IsInt(v: int) {
    -0x8000_0000 <= v < 0x8000_0000
  }

  /** In every run, two zones that asked for a VT get different addresses from the same template with an ~IP~. */
  lemma AddressesDiffer(m: Manager, pool: seq<int>, es: seq<Event>, i: nat, j: nat, pieces: seq<string>)
    requires LooseInv(m, pool) && pool != [] && (forall v :: v in pool ==> IsInt(v)) && |pieces| > 1
    requires var n := HandleAll(m, pool, es); i < j < |n.zones| && n.zones[i].wantsVT && n.zones[j].wantsVT
    ensures var n := HandleAll(m, pool, es);
            Address(pieces, ThirdOctet(n.zones[i].vt)) != Address(pieces, ThirdOctet(n.zones[j].vt))
  {
    hide T.ToString, HandleAll, LooseFocus, NamesInv, RegistryInv, Address;
    EveryRunKeepsLoose(m, pool, es);
    var n := HandleAll(m, pool, es);
    assert n.zones[i] in n.zones && n.zones[j] in n.zones;
    if Address(pieces, ThirdOctet(n.zones[i].vt)) == Address(pieces, ThirdOctet(n.zones[j].vt)) {
      SameAddressSameOctet(pieces, ThirdOctet(n.zones[i].vt), ThirdOctet(n.zones[j].vt));
      SameOctetSameVT(n.zones[i].vt, n.zones[j].vt);
    }
  }

  lemma {:induction false} LongerOctet(pieces: seq<string>, x: string, y: string)
    requires pieces != [] && |x| < |y|
    ensures |Address(pieces, x)| <= |Address(pieces, y)|
    ensures |pieces| > 1 ==> |Address(pieces, x)| < |Address(pieces, y)|
  {
    if |pieces| > 1 { LongerOctet(pieces[1..], x, y); }
  }

  lemma SameAddressSameOctet(pieces: seq<string>, x: string, y: string)
    requires |pieces| > 1 && Address(pieces, x) == Address(pieces, y)
    ensures x == y
  {
    if |x| < |y| { LongerOctet(pieces, x, y); } else if |y| < |x| { LongerOctet(pieces, y, x); }
    assert |x| == |y|;
    var at := |pieces[0]|;
    assert Address(pieces, x)[at..at + |x|] == x;
    assert Address(pieces, y)[at..at + |x|] == y;
  }

  lemma SameOctetSameVT(a: int, b: int)
    requires IsInt(a) && IsInt(b) && ThirdOctet(a) == ThirdOctet(b)
    ensures a == b
  {
    hide T.ToString;
    T.PrintedDiffer((ZONE_IP_BASE_THIRD_OCTET + a) % 0x1_0000_0000, (ZONE_IP_BASE_THIRD_OCTET + b) % 0x1_0000_0000);
  }

  /** Destroying a zone frees its VT. */
  lemma {:induction false} DestroyFreesVT(m: Manager, pool: seq<int>, i: nat)
    requires LooseInv(m, pool) && i < |m.zones| && m.zones[i].wantsVT
    requires pool != [] && forall v :: v in pool ==> v >= 0
    ensures var n := DestroyZone(m, m.zones[i].id);
            m.zones[i].vt in pool && forall z :: z in n.zones ==> z.vt != m.zones[i].vt
  {
    FindUnique(m.zones, i);
    var rest := m.zones[..i] + m.zones[i + 1..];
    var n := DestroyZone(m, m.zones[i].id);
    assert m.zones[i] in m.zones;
    RestVTs(m, pool, i, rest);
    DestroyVTs(m, i);
    forall z | z in n.zones ensures z.vt != m.zones[i].vt {
      var k :| 0 <= k < |n.zones| && n.zones[k] == z;
      assert rest[k] in rest;
    }
  }

  lemma RestVTs(m: Manager, pool: seq<int>, i: nat, rest: seq<Zone>)
    requires VTInv(m, pool) && i < |m.zones| && m.zones[i].wantsVT
    requires pool != [] && forall v :: v in pool ==> v >= 0
    requires rest == m.zones[..i] + m.zones[i + 1..]
    ensures forall z :: z in rest ==> z.vt != m.zones[i].vt
  {
    assert m.zones[i] in m.zones;
    forall k | 0 <= k < |rest| ensures rest[k].vt != m.zones[i].vt {
      var j := if k < i then k else k + 1;
      assert rest[k] == m.zones[j] && m.zones[j] in m.zones;
    }
  }

  lemma {:induction false} DestroyVTs(m: Manager, i: nat)
    requires NamesInv(m) && i < |m.zones|
    ensures var n, rest := DestroyZone(m, m.zones[i].id), m.zones[..i] + m.zones[i + 1..];
            |n.zones| == |rest| && forall k :: 0 <= k < |rest| ==> n.zones[k].vt == rest[k].vt
  {
    FindUnique(m.zones, i);
    var rest := m.zones[..i] + m.zones[i + 1..];
    var n := UpdateDefaultId(Saved(Erased(m, i, m.zones[i].id)));
    assert n.zones == rest;
    FocusFrame(n, RefocusTarget(n));
  }
}
