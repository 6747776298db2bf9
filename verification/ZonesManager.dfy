/**
 * ZonesManager and Zone (server/zones-manager.cpp, server/zone.cpp) as objects:
 * every handler, run on the fields, is the function of module Zones, and keeps its invariant.
 */
module ZonesManagers {
  import opened Options
  import Z = Zones
  import S = ZoneSwitching

  class Zone {
    const mId: string
    const mVT: int
    const mWantsVT: bool
    const mSwitchAllowed: bool
    var mState: Z.LxcState
    var mLevel: Z.Level
    var mRequested: Z.Requested

    ghost function View(): Z.Zone
      reads this
    {
      Z.Zone(mId, mState, mLevel, mRequested, mVT, mWantsVT, mSwitchAllowed)
    }

    constructor (id: string, vt: int, wantsVT: bool, switchAllowed: bool)
      ensures View() == Z.Zone(id, Z.Stopped, Z.Background, Z.ReqStopped, vt, wantsVT, switchAllowed)
    {
      mId, mVT, mWantsVT, mSwitchAllowed := id, vt, wantsVT, switchAllowed;
      mState, mLevel, mRequested := Z.Stopped, Z.Background, Z.ReqStopped;
    }

    /** The precondition is the assertion of setSchedulerLevel. */
    method SetSchedulerLevel(level: Z.Level)
      requires mState == Z.Running
      modifies this`mLevel
      ensures mLevel == level
    {
      mLevel := level;
    }

    /** LXC will not start what it already counts as running, frozen zones included. */
    method Start(lxcStarts: bool) returns (ok: bool)
      modifies this
      ensures ok == (old(mState) == Z.Running || (old(mState) == Z.Stopped && lxcStarts))
      ensures var z := old(View()).(requested := Z.ReqRunning);
              View() == if ok && old(mState) == Z.Stopped then z.(state := Z.Running, level := Z.Foreground) else z
    {
      mRequested := Z.ReqRunning;
      if mState == Z.Running {
        return true;
      }
      if mState == Z.Frozen || !lxcStarts {
        return false;
      }
      mState := Z.Running;
      SetSchedulerLevel(Z.Foreground);
      return true;
    }

    method Stop(lxcStops: bool) returns (ok: bool)
      modifies this
      ensures ok == (old(mState) == Z.Stopped || lxcStops)
      ensures var z := old(View()).(requested := Z.ReqStopped);
              var boosted := if z.state == Z.Running then z.(level := Z.Foreground) else z;
              View() == if ok then boosted.(state := Z.Stopped) else boosted
    {
      mRequested := Z.ReqStopped;
      if mState == Z.Running {
        SetSchedulerLevel(Z.Foreground);
      }
      if mState == Z.Stopped {
        return true;
      }
      if !lxcStops {
        return false;
      }
      mState := Z.Stopped;
      return true;
    }

    /** goForeground or goBackground; zones that do not run are left alone. */
    method Follow(idToFocus: string)
      modifies this`mLevel
      ensures View() == Z.Promoted(old(View()), idToFocus)
    {
      if mState == Z.Running {
        if mId == idToFocus {
          SetSchedulerLevel(Z.Foreground);
        } else {
          SetSchedulerLevel(Z.Background);
        }
      }
    }

    method Suspend()
      modifies this`mState, this`mRequested
      ensures mState == Z.Frozen && mRequested == Z.ReqPaused
    {
      mState := Z.Frozen;
      mRequested := Z.ReqPaused;
    }

    method Resume()
      modifies this`mState, this`mRequested
      ensures mState == Z.Running && mRequested == Z.ReqRunning
    {
      mState := Z.Running;
      mRequested := Z.ReqRunning;
    }
  }

  ghost function Views(zs: seq<Zone>): (vs: seq<Z.Zone>)
    reads zs
    ensures |vs| == |zs| && forall i :: 0 <= i < |zs| ==> vs[i] == zs[i].View()
  {
    seq(|zs|, i requires 0 <= i < |zs| reads zs => zs[i].View())
  }

  class ZonesManager {
    var mZones: seq<Zone>
    var mActiveZoneId: string
    var mDynamicConfig: Z.Dynamic
    var mSavedConfig: Z.Dynamic
    var mEnabledFile: bool
    const mAvailableVTs: seq<int>

    ghost function View(): Z.Manager
      reads this, mZones
    {
      Z.Manager(Views(mZones), mActiveZoneId, mDynamicConfig, mSavedConfig, mEnabledFile)
    }

    /** The invariant of all runs; Zones.HandleKeeps says which of them keep the stricter one. */
    ghost predicate Valid()
      reads this, mZones
    {
      Z.LooseInv(View(), mAvailableVTs)
    }

    /** start(): the zones of the loaded configuration are inserted one by one. */
    constructor (zones: seq<Zone>, defaultId: string, enabledBefore: bool, availableVTs: seq<int>)
      requires Z.GoodConfig(Views(zones), enabledBefore, availableVTs)
      ensures View() == Z.StartUp(Views(zones), defaultId, enabledBefore) && Valid() && Z.Inv(View(), mAvailableVTs)
      ensures mZones == zones && mAvailableVTs == availableVTs
    {
      mZones := zones;
      mActiveZoneId := "";
      mDynamicConfig := Z.Dynamic(seq(|zones|, i requires 0 <= i < |zones| => zones[i].mId), defaultId);
      mSavedConfig := Z.Dynamic(seq(|zones|, i requires 0 <= i < |zones| => zones[i].mId), defaultId);
      mEnabledFile := enabledBefore || |zones| > 0;
      mAvailableVTs := availableVTs;
      new;
      assert mDynamicConfig.zoneIds == Z.Ids(Views(zones));
      UpdateDefaultId();
      Z.StartUpInv(Views(zones), defaultId, enabledBefore, availableVTs);
      Z.StrictIsLoose(View(), availableVTs);
    }

    method FindZone(id: string) returns (i: nat)
      ensures i == Z.Find(Views(mZones), id)
    {
      i := 0;
      while i < |mZones| && mZones[i].mId != id
        invariant i <= |mZones| && forall k :: 0 <= k < i ==> mZones[k].mId != id
      {
        i := i + 1;
      }
      assert forall k :: 0 <= k < i ==> Views(mZones)[k].id != id;
    }

    method FindRunning() returns (i: nat)
      ensures i == Z.FirstRunning(Views(mZones))
    {
      i := 0;
      while i < |mZones| && mZones[i].mState != Z.Running
        invariant i <= |mZones| && forall k :: 0 <= k < i ==> mZones[k].mState != Z.Running
      {
        i := i + 1;
      }
      assert forall k :: 0 <= k < i ==> Views(mZones)[k].state != Z.Running;
    }

    method UpdateDefaultId()
      modifies this`mDynamicConfig, this`mSavedConfig
      ensures View() == Z.UpdateDefaultId(old(View()))
    {
      if |mZones| == 0 && mDynamicConfig.defaultId == "" {
        return;
      }
      var i := FindZone(mDynamicConfig.defaultId);
      if i != |mZones| {
        return;
      }
      if |mZones| == 0 {
        mDynamicConfig := mDynamicConfig.(defaultId := "");
      } else {
        mDynamicConfig := mDynamicConfig.(defaultId := mZones[0].mId);
      }
      mSavedConfig := mDynamicConfig;
    }

    /** The precondition holds the assertion that a zone about to be focused runs. */
    method FocusInternal(iter: nat)
      requires iter <= |mZones| && Z.NamesInv(View())
      requires iter < |mZones| && mZones[iter].mId != mActiveZoneId ==> mZones[iter].mState == Z.Running
      modifies this`mActiveZoneId, mZones
      ensures mZones == old(mZones) && View() == Z.FocusInternal(old(View()), iter)
    {
      if iter == |mZones| {
        if mActiveZoneId != "" {
          mActiveZoneId := "";
        }
        return;
      }
      var idToFocus := mZones[iter].mId;
      if idToFocus == mActiveZoneId {
        return;
      }
      PromoteZones(idToFocus);
      mActiveZoneId := idToFocus;
    }

    /** The loop over the zones: one goes to the foreground, the other running ones to the background. */
    method PromoteZones(idToFocus: string)
      requires Z.NamesInv(View())
      modifies mZones
      ensures Views(mZones) == Z.Promote(old(Views(mZones)), idToFocus)
    {
      ghost var was := Views(mZones);
      ZonesDistinct();
      hide Z.NamesInv, Z.Promoted;
      for k := 0 to |mZones|
        invariant forall j :: 0 <= j < |mZones| ==>
                    mZones[j].View() == if j < k then Z.Promoted(was[j], idToFocus) else was[j]
      {
        assert mZones[k].View() == was[k];
        mZones[k].Follow(idToFocus);
      }
      assert Views(mZones) == Z.Promote(was, idToFocus);
    }

    /** Different ids, hence different objects. */
    lemma ZonesDistinct()
      requires Z.NamesInv(View())
      ensures forall i, j :: 0 <= i < j < |mZones| ==> mZones[i] != mZones[j]
    {
      assert forall i, j :: 0 <= i < j < |mZones| ==> Views(mZones)[i].id != Views(mZones)[j].id;
    }

    method Refocus()
      requires Z.NamesInv(View())
      modifies this`mActiveZoneId, mZones
      ensures mZones == old(mZones) && View() == Z.Refocus(old(View()))
    {
      hide Z.NamesInv, Z.FocusInternal, Z.Find, Z.FirstRunning;
      var oldIter := FindZone(mActiveZoneId);
      if oldIter != |mZones| && mZones[oldIter].mState == Z.Running {
        return;
      }
      var iter := FindZone(mDynamicConfig.defaultId);
      if iter == |mZones| || mZones[iter].mState != Z.Running {
        iter := FindRunning();
      }
      FocusInternal(iter);
    }

    /** A change of one zone object is a change of one place in the view. */
    twostate lemma OneZoneChanged(i: nat)
      requires mZones == old(mZones) && i < |mZones| && Z.NamesInv(old(View()))
      requires mActiveZoneId == old(mActiveZoneId) && mDynamicConfig == old(mDynamicConfig)
      requires mSavedConfig == old(mSavedConfig) && mEnabledFile == old(mEnabledFile)
      requires forall z :: z in mZones && z != mZones[i] ==> unchanged(z)
      ensures View() == Z.SetZone(old(View()), i, mZones[i].View())
      ensures Z.NamesInv(View())
    {
      var was := old(Views(mZones));
      assert forall j :: 0 <= j < |mZones| && j != i ==> was[j].id != was[i].id;
      assert forall j :: 0 <= j < |mZones| && j != i ==> mZones[j].mId != mZones[i].mId && mZones[j] in mZones;
      assert forall j :: 0 <= j < |mZones| && j != i ==> mZones[j].View() == was[j];
      assert Views(mZones) == was[i := mZones[i].View()];
      Z.KeepNames(was, Views(mZones));
    }

    method StartZone(id: string, lxcStarts: bool)
      requires Valid()
      modifies this`mActiveZoneId, mZones
      ensures mZones == old(mZones) && Valid() && View() == Z.StartZone(old(View()), id, lxcStarts)
    {
      hide Z.LooseInv, Z.LooselyKept, Z.StartZone, Z.NamesInv;
      InvNames();
      ghost var m := View();
      Z.HandleKeepsLoose(m, mAvailableVTs, Z.Start(id, lxcStarts));
      StartParts(m, id, lxcStarts);
      var iter := FindZone(id);
      if iter == |mZones| {
        return;
      }
      var ok := mZones[iter].Start(lxcStarts);
      OneZoneChanged(iter);
      if ok {
        FocusInternal(iter);
      }
    }

    lemma InvNames()
      requires Valid()
      ensures Z.NamesInv(View())
    {
    }

    /** What StartZone does to the i-th zone and the focus. */
    static function Started(m: Z.Manager, i: nat, lxcStarts: bool): Z.Manager
      requires i < |m.zones|
    {
      var z := m.zones[i].(requested := Z.ReqRunning);
      if z.state == Z.Running then Z.FocusInternal(Z.SetZone(m, i, z), i)
      else if z.state == Z.Stopped && lxcStarts
      then Z.FocusInternal(Z.SetZone(m, i, z.(state := Z.Running, level := Z.Foreground)), i)
      else Z.SetZone(m, i, z)
    }

    /** Zone::start, then the focus. */
    lemma StartParts(m: Z.Manager, id: string, lxcStarts: bool)
      ensures Z.Handle(m, mAvailableVTs, Z.Start(id, lxcStarts)) == Z.StartZone(m, id, lxcStarts)
      ensures Z.Find(m.zones, id) < |m.zones| ==>
                Z.StartZone(m, id, lxcStarts) == Started(m, Z.Find(m.zones, id), lxcStarts)
      ensures Z.Find(m.zones, id) == |m.zones| ==> Z.StartZone(m, id, lxcStarts) == m
    {
    }

    /** With `lxcStops` false the handler gives up with the boost in place: Zones.FailedShutdown says what that breaks. */
    method ShutdownZone(id: string, lxcStops: bool)
      requires Valid()
      modifies this`mActiveZoneId, mZones
      ensures mZones == old(mZones) && Valid() && View() == Z.ShutdownZone(old(View()), id, lxcStops)
      ensures forall z :: z in mZones && z.mId == id ==>
                z.mRequested == Z.ReqStopped && (lxcStops ==> z.mState == Z.Stopped && mActiveZoneId != id)
    {
      InvNames();
      Z.HandleKeepsLoose(View(), mAvailableVTs, Z.Shutdown(id, lxcStops));
      Z.ShutdownSays(View(), id, lxcStops);
      hide Z.LooseInv, Z.LooselyKept, Z.NamesInv, Z.Refocus, Z.Find;
      StopAndRefocus(id, lxcStops);
      hide *;
      assert forall j :: 0 <= j < |mZones| ==> mZones[j].View() == View().zones[j];
    }

    method StopAndRefocus(id: string, lxcStops: bool)
      requires Z.NamesInv(View())
      modifies this`mActiveZoneId, mZones
      ensures mZones == old(mZones) && View() == Z.ShutdownZone(old(View()), id, lxcStops)
    {
      hide Z.NamesInv, Z.Refocus, Z.Find;
      var iter := FindZone(id);
      if iter == |mZones| {
        return;
      }
      var ok := mZones[iter].Stop(lxcStops);
      OneZoneChanged(iter);
      if ok {
        Refocus();
      }
    }

    method LockZone(id: string)
      requires Valid()
      modifies this`mActiveZoneId, mZones
      ensures mZones == old(mZones) && Valid() && View() == Z.LockZone(old(View()), id)
    {
      hide Z.LooseInv, Z.LooselyKept, Z.NamesInv, Z.Refocus, Z.Find;
      InvNames();
      Z.HandleKeepsLoose(View(), mAvailableVTs, Z.Lock(id));
      var iter := FindZone(id);
      if iter == |mZones| || mZones[iter].mState != Z.Running {
        return;
      }
      mZones[iter].SetSchedulerLevel(Z.Background);
      mZones[iter].Suspend();
      OneZoneChanged(iter);
      Refocus();
    }

    method UnlockZone(id: string)
      requires Valid()
      modifies mZones
      ensures mZones == old(mZones) && Valid() && View() == Z.UnlockZone(old(View()), id)
    {
      hide Z.LooseInv, Z.LooselyKept, Z.NamesInv, Z.Find;
      InvNames();
      Z.HandleKeepsLoose(View(), mAvailableVTs, Z.Unlock(id));
      var iter := FindZone(id);
      if iter == |mZones| || mZones[iter].mState != Z.Frozen {
        return;
      }
      mZones[iter].Resume();
      OneZoneChanged(iter);
    }

    method SetActiveZone(id: string)
      requires Valid()
      modifies this`mActiveZoneId, mZones
      ensures mZones == old(mZones) && Valid() && View() == Z.SetActiveZone(old(View()), id)
    {
      hide Z.LooseInv, Z.LooselyKept, Z.NamesInv, Z.FocusInternal, Z.Find;
      InvNames();
      Z.HandleKeepsLoose(View(), mAvailableVTs, Z.SetActive(id));
      var iter := FindZone(id);
      if iter == |mZones| || mZones[iter].mState != Z.Running {
        return;
      }
      FocusInternal(iter);
    }

    method SwitchToDefault()
      requires Valid()
      modifies this`mActiveZoneId, mZones
      ensures mZones == old(mZones) && Valid() && View() == Z.SwitchToDefault(old(View()))
    {
      hide Z.LooseInv, Z.LooselyKept, Z.NamesInv, Z.FocusInternal, Z.Find;
      InvNames();
      Z.HandleKeepsLoose(View(), mAvailableVTs, Z.ToDefault);
      var active := FindZone(mActiveZoneId);
      var defaultIter := FindZone(mDynamicConfig.defaultId);
      if active != |mZones| && defaultIter != |mZones| && mZones[active].mSwitchAllowed
         && mZones[defaultIter].mState == Z.Running {
        FocusInternal(defaultIter);
      }
    }

    function RunningFlags(): (b: seq<bool>)
      reads this, mZones
      ensures b == S.RunningFlags(Views(mZones))
    {
      seq(|mZones|, i requires 0 <= i < |mZones| reads this, mZones => mZones[i].mState == Z.Running)
    }

    method GetNextToForeground() returns (next: nat)
      ensures next == Z.NextToForeground(View())
    {
      hide Z.SearchNext, S.IsCircularNext, Z.Find, S.RunningFlags;
      var current := FindZone(mActiveZoneId);
      if current == |mZones| {
        next := FindRunning();
      } else {
        next := S.CircularFindNext(RunningFlags(), current);
        S.FindsTheSearched(Views(mZones), current, next);
      }
    }

    method SwitchingSequenceMonitorNotify()
      requires Valid()
      modifies this`mActiveZoneId, mZones
      ensures mZones == old(mZones) && Valid() && View() == Z.SwitchNotify(old(View()))
    {
      hide Z.LooseInv, Z.LooselyKept, Z.NamesInv, Z.FocusInternal, Z.NextToForeground;
      InvNames();
      Z.HandleKeepsLoose(View(), mAvailableVTs, Z.Switch);
      var next := GetNextToForeground();
      if next != |mZones| {
        FocusInternal(next);
      }
    }

    /** getVTForNewZone: the pool without the used numbers, and the smallest of what is left. */
    method GetVTForNewZone() returns (vt: Option<int>)
      ensures mAvailableVTs == [] ==> vt == Some(-1)
      ensures mAvailableVTs != [] ==> vt == Z.SmallestFree(mAvailableVTs, Z.UsedVTs(Views(mZones)))
    {
      if mAvailableVTs == [] {
        return Some(-1);
      }
      var candidates := set v | v in mAvailableVTs;
      for k := 0 to |mZones|
        invariant forall v :: v in candidates <==> v in mAvailableVTs && forall j :: 0 <= j < k ==> mZones[j].mVT != v
      {
        candidates := candidates - {mZones[k].mVT};
      }
      ghost var used := Z.UsedVTs(Views(mZones));
      assert forall j :: 0 <= j < |mZones| ==> Views(mZones)[j].vt in used;
      assert forall v :: v in candidates <==> v in mAvailableVTs && v !in used;
      vt := None;
      for k := 0 to |mAvailableVTs|
        invariant vt.None? ==> forall j :: 0 <= j < k ==> mAvailableVTs[j] !in candidates
        invariant vt.Some? ==> vt.value in candidates
        invariant vt.Some? ==> forall j :: 0 <= j < k && mAvailableVTs[j] in candidates ==> vt.value <= mAvailableVTs[j]
      {
        if mAvailableVTs[k] in candidates && (vt.None? || mAvailableVTs[k] < vt.value) {
          vt := Some(mAvailableVTs[k]);
        }
      }
    }

    /** The checks of createZone in their order, and the VT that generateNewConfig chooses. */
    method CheckCreation(id: string, env: Z.Env) returns (outcome: Z.Created, vt: int)
      ensures outcome == Z.CreateOutcome(View(), mAvailableVTs, id, env)
      ensures outcome == Z.Done ==> vt == Z.NewZone(View(), mAvailableVTs, id, env).vt
    {
      hide Z.Find, Z.SmallestFree, Z.UsedVTs, Z.Alnum;
      vt := env.templateVT;
      if id == "" || !Z.Alnum(id) {
        return Z.InvalidName, vt;
      }
      if id in Z.PROHIBITED {
        return Z.NameNotAllowed, vt;
      }
      var iter := FindZone(id);
      if iter != |mZones| {
        return Z.AlreadyExists, vt;
      }
      if env.pathExists {
        return Z.PathExists, vt;
      }
      if !env.imageOk {
        return Z.ImageFailed, vt;
      }
      if !env.configOk {
        return Z.ConfigFailed, vt;
      }
      if vt >= 0 {
        var freeVT := GetVTForNewZone();
        if freeVT.None? {
          return Z.NoFreeVT, vt;
        }
        vt := freeVT.value;
      }
      if id == Z.HOST_ID {
        return Z.ReservedId, vt;
      }
      if !env.zoneOk {
        return Z.ZoneFailed, vt;
      }
      return Z.Done, vt;
    }

    method CreateZone(id: string, env: Z.Env) returns (outcome: Z.Created)
      requires Valid()
      modifies this
      ensures Valid() && outcome == Z.CreateOutcome(old(View()), mAvailableVTs, id, env)
      ensures View() == Z.CreateZone(old(View()), mAvailableVTs, id, env)
      ensures if outcome == Z.Done then exists z :: fresh(z) && mZones == old(mZones) + [z] else mZones == old(mZones)
    {
      hide Z.LooseInv, Z.LooselyKept, Z.Find, Z.UpdateDefaultId, Z.CreateOutcome, Z.NewVT;
      ghost var m := View();
      Z.HandleKeepsLoose(m, mAvailableVTs, Z.Create(id, env));
      var vt: int;
      outcome, vt := CheckCreation(id, env);
      if outcome != Z.Done {
        return;
      }
      var zone := new Zone(id, vt, env.templateVT >= 0, env.switchAllowed);
      InsertNew(zone);
      mDynamicConfig := mDynamicConfig.(zoneIds := mDynamicConfig.zoneIds + [id]);
      mSavedConfig := mDynamicConfig;
      UpdateDefaultId();
    }

    /** insertZone, once the checks are done and the zone is constructed. */
    method InsertNew(zone: Zone)
      modifies this`mZones, this`mEnabledFile
      ensures mZones == old(mZones) + [zone] && View() == Z.Insert(old(View()), zone.View())
    {
      ghost var was := Views(mZones);
      mZones := mZones + [zone];
      assert Views(mZones) == was + [zone.View()];
      if |mZones| == 1 {
        mEnabledFile := true;
      }
    }

    method DestroyZone(id: string) returns (found: bool)
      requires Valid()
      modifies this, mZones
      ensures Valid() && found == (Z.Find(old(View()).zones, id) < |old(mZones)|)
      ensures View() == Z.DestroyZone(old(View()), id)
      ensures forall z :: z in mZones ==> z in old(mZones)
    {
      hide Z.LooseInv, Z.LooselyKept, Z.NamesInv, Z.Find, Z.UpdateDefaultId, Z.Refocus, Z.Erased, Z.Saved, Z.DestroyZone;
      ghost var m := View();
      Z.HandleKeepsLoose(m, mAvailableVTs, Z.Destroy(id));
      var iter := FindZone(id);
      if iter == |mZones| {
        Z.DestroyNothing(m, id);
        return false;
      }
      InvNames();
      Z.DestroyRefocuses(m, iter, id);
      RemoveAt(iter, id);
      return true;
    }

    method RemoveAt(iter: nat, id: string)
      requires iter < |mZones| && Z.NamesInv(Z.UpdateDefaultId(Z.Saved(Z.Erased(View(), iter, id))))
      modifies this, mZones
      ensures View() == Z.Refocus(Z.UpdateDefaultId(Z.Saved(Z.Erased(old(View()), iter, id))))
      ensures mZones == old(mZones)[..iter] + old(mZones)[iter + 1..]
    {
      hide Z.NamesInv, Z.UpdateDefaultId, Z.Refocus, Z.Erased, Z.Saved;
      Erase(iter, id);
      UpdateDefaultId();
      Refocus();
    }

    /** The zone leaves the list, the marker file and the persisted list of ids. */
    method Erase(iter: nat, id: string)
      requires iter < |mZones|
      modifies this`mZones, this`mEnabledFile, this`mDynamicConfig, this`mSavedConfig
      ensures mZones == old(mZones)[..iter] + old(mZones)[iter + 1..]
      ensures View() == Z.Saved(Z.Erased(old(View()), iter, id))
    {
      ghost var was := Views(mZones);
      mZones := mZones[..iter] + mZones[iter + 1..];
      assert Views(mZones) == was[..iter] + was[iter + 1..];
      if |mZones| == 0 {
        mEnabledFile := false;
      }
      mDynamicConfig := mDynamicConfig.(zoneIds := Z.Without(mDynamicConfig.zoneIds, id));
      mSavedConfig := mDynamicConfig;
    }
  }
}
