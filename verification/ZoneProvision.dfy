/**
 * A zone's provisions (server/zone-provision.cpp): declarations, the mounts that
 * a start makes and a stop undoes, each of which may fail on its own.
 */
module ZoneProvisions {
  import opened Options
  import opened Texts

  datatype Provision =
    | File(kind: int, path: string, fileFlags: int, mode: int)
    | Mount(source: string, target: string, fs: string, mountFlags: int, data: string)
    | Link(linkSource: string, linkTarget: string)

  function GetId(p: Provision): string {
    match p
    case File(kind, path, flags, mode) =>
      "file " + path + " " + IntToString(kind) + " " + IntToString(flags) + " " + IntToString(mode)
    case Mount(source, target, fs, flags, data) =>
      "mount " + source + " " + target + " " + fs + " " + IntToString(flags) + " " + data
    case Link(source, target) =>
      "link " + source + " " + target
  }

  /** The words of an id. */
  function Words(p: Provision): (ws: seq<string>)
    ensures ws != []
  {
    match p
    case File(kind, path, flags, mode) => ["file", path, IntToString(kind), IntToString(flags), IntToString(mode)]
    case Mount(source, target, fs, flags, data) => ["mount", source, target, fs, IntToString(flags), data]
    case Link(source, target) => ["link", source, target]
  }

  /** No text of the provision holds a space. */
  predicate SpaceFree(p: Provision) {
    match p
    case File(_, path, _, _) => ' ' !in path
    case Mount(source, target, fs, _, data) => ' ' !in source && ' ' !in target && ' ' !in fs && ' ' !in data
    case Link(source, target) => ' ' !in source && ' ' !in target
  }

  lemma IdIsWords(p: Provision)
    ensures GetId(p) == Spaced(Words(p))
  {
    hide IntToString;
    match p {
      case File(kind, path, flags, mode) => IdOfFile(path, IntToString(kind), IntToString(flags), IntToString(mode));
      case Mount(source, target, fs, flags, data) => IdOfMount(source, target, fs, IntToString(flags), data);
      case Link(source, target) => IdOfLink(source, target);
    }
  }

  lemma SpacedStep(w: string, ws: seq<string>)
    requires ws != []
    ensures Spaced([w] + ws) == w + " " + Spaced(ws) && Spaced([w]) == w
  {
    assert ([w] + ws)[1..] == ws;
  }

  lemma IdOfLink(a: string, b: string)
    ensures Spaced(["link", a, b]) == "link " + a + " " + b
  {
    hide Spaced;
    SpacedStep(b, [b]);
    SpacedStep(a, [b]);
    SpacedStep("link", [a, b]);
    assert [a] + [b] == [a, b] && ["link"] + [a, b] == ["link", a, b];
    assert "link" + " " + (a + " " + b) == "link " + a + " " + b;
  }

  lemma IdOfFile(a: string, b: string, c: string, d: string)
    ensures Spaced(["file", a, b, c, d]) == "file " + a + " " + b + " " + c + " " + d
  {
    hide Spaced;
    SpacedStep(d, [d]);
    SpacedStep(c, [d]);
    SpacedStep(b, [c, d]);
    SpacedStep(a, [b, c, d]);
    SpacedStep("file", [a, b, c, d]);
    assert [c] + [d] == [c, d] && [b] + [c, d] == [b, c, d] && [a] + [b, c, d] == [a, b, c, d];
    assert ["file"] + [a, b, c, d] == ["file", a, b, c, d];
    assert "file" + " " + (a + " " + (b + " " + (c + " " + d))) == "file " + a + " " + b + " " + c + " " + d;
  }

  lemma IdOfMount(a: string, b: string, c: string, d: string, e: string)
    ensures Spaced(["mount", a, b, c, d, e]) == "mount " + a + " " + b + " " + c + " " + d + " " + e
  {
    hide Spaced;
    SpacedStep(e, [e]);
    SpacedStep(d, [e]);
    SpacedStep(c, [d, e]);
    SpacedStep(b, [c, d, e]);
    SpacedStep(a, [b, c, d, e]);
    SpacedStep("mount", [a, b, c, d, e]);
    assert [d] + [e] == [d, e] && [c] + [d, e] == [c, d, e] && [b] + [c, d, e] == [b, c, d, e];
    assert [a] + [b, c, d, e] == [a, b, c, d, e] && ["mount"] + [a, b, c, d, e] == ["mount", a, b, c, d, e];
    assert "mount" + " " + (a + " " + (b + " " + (c + " " + (d + " " + e)))) ==
           "mount " + a + " " + b + " " + c + " " + d + " " + e;
  }

  lemma WordsAreWords(p: Provision)
    requires SpaceFree(p)
    ensures forall w :: w in Words(p) ==> ' ' !in w
  {
    hide IntToString;
  }

  /** Different provisions without spaces have different ids ... */
  lemma IdsTellApart(p: Provision, q: Provision)
    requires SpaceFree(p) && SpaceFree(q) && GetId(p) == GetId(q)
    ensures p == q
  {
    hide IntToString, GetId, Spaced, Words;
    IdIsWords(p);
    IdIsWords(q);
    WordsAreWords(p);
    WordsAreWords(q);
    SpacedDiffer(Words(p), Words(q));
    SameWords(p, q);
  }

  lemma SameWords(p: Provision, q: Provision)
    requires Words(p) == Words(q)
    ensures p == q
  {
    hide IntToString;
    assert |Words(p)| == |Words(q)|;
    match p {
      case File(kind, path, flags, mode) =>
        assert Words(p)[1] == Words(q)[1] && Words(p)[2] == Words(q)[2] && Words(p)[3] == Words(q)[3] && Words(p)[4] == Words(q)[4];
        PrintedIntsDiffer(kind, q.kind);
        PrintedIntsDiffer(flags, q.fileFlags);
        PrintedIntsDiffer(mode, q.mode);
      case Mount(source, target, fs, flags, data) =>
        assert Words(p)[1] == Words(q)[1] && Words(p)[2] == Words(q)[2] && Words(p)[3] == Words(q)[3];
        assert Words(p)[4] == Words(q)[4] && Words(p)[5] == Words(q)[5];
        PrintedIntsDiffer(flags, q.mountFlags);
      case Link(source, target) =>
        assert Words(p)[1] == Words(q)[1] && Words(p)[2] == Words(q)[2];
    }
  }

  /** ... but with spaces two may share one, and then the second cannot be declared. */
  lemma IdsCollide()
    ensures Link("a b", "c") != Link("a", "b c") && GetId(Link("a b", "c")) == GetId(Link("a", "b c"))
  {
    assert "link " + "a b" + " " + "c" == "link a b c" == "link " + "a" + " " + "b c";
    assert "a b" != "a";
  }

  /** boost::filesystem's root / target. */
  function HostPath(root: string, target: string): string {
    if root == "" || target == "" || root[|root| - 1] == '/' || target[0] == '/' then root + target
    else root + "/" + target
  }

  /** A provision in mProvisioned. `stamp` counts the provisions made before it. */
  datatype Entry = Entry(provision: Provision, stamp: nat)

  /** `mounts` is the kernel's mount table by mount point, `base` what it held before; `made` every provision ever made. */
  datatype State = State(
    root: string,
    config: seq<Provision>,
    provisioned: seq<Entry>,
    made: seq<Provision>,
    mounts: multiset<string>,
    base: multiset<string>)

  datatype Op = Declare(p: Provision) | Remove(item: string) | Start(oks: seq<bool>) | Stop(oks: seq<bool>)

  /** Does the k-th system call succeed? */
  predicate Ok(oks: seq<bool>, k: nat) {
    k < |oks| && oks[k]
  }

  function Ids(config: seq<Provision>): (ids: seq<string>)
    ensures |ids| == |config| && forall k :: 0 <= k < |config| ==> ids[k] == GetId(config[k])
  {
    seq(|config|, k requires 0 <= k < |config| => GetId(config[k]))
  }

  function FirstOf(ids: seq<string>, id: string): (k: nat)
    ensures k <= |ids| && (k < |ids| ==> ids[k] == id)
    ensures forall j :: 0 <= j < k ==> ids[j] != id
  {
    if ids == [] || ids[0] == id then 0 else FirstOf(ids[1..], id) + 1
  }

  /** The first provision with the id, or the end. */
  function Place(config: seq<Provision>, id: string): (k: nat)
    ensures k <= |config| && (k < |config| ==> GetId(config[k]) == id)
    ensures forall j :: 0 <= j < k ==> GetId(config[j]) != id
  {
    var k := FirstOf(Ids(config), id);
    assert forall j :: 0 <= j < k ==> Ids(config)[j] != id;
    k
  }

  function DeclareProvision(config: seq<Provision>, p: Provision): Option<seq<Provision>> {
    if Place(config, GetId(p)) < |config| then None else Some(config + [p])
  }

  function RemoveProvision(config: seq<Provision>, item: string): Option<seq<Provision>> {
    var k := Place(config, item);
    if k == |config| then None else Some(config[..k] + config[k + 1..])
  }

  function Make(s: State, p: Provision, ok: bool): State {
    if !ok then s
    else
      s.(provisioned := [Entry(p, |s.made|)] + s.provisioned,
         made := s.made + [p],
         mounts := s.mounts + PointOf(s.root, p))
  }

  /** The first n provisions of the configuration. */
  function StartFirst(s: State, oks: seq<bool>, n: nat): State
    requires n <= |s.config|
  {
    if n == 0 then s else Make(StartFirst(s, oks, n - 1), s.config[n - 1], Ok(oks, n - 1))
  }

  /** An entry stays after a stop if it is a mount whose unmount failed. */
  predicate Stays(entry: Entry, ok: bool) {
    entry.provision.Mount? && !ok
  }

  function Kept(entries: seq<Entry>, oks: seq<bool>, n: nat): seq<Entry>
    requires n <= |entries|
  {
    if n == 0 then []
    else Kept(entries, oks, n - 1) + if Stays(entries[n - 1], Ok(oks, n - 1)) then [entries[n - 1]] else []
  }

  /** The unmount calls for the first n entries. */
  function Attempts(entries: seq<Entry>, n: nat): seq<Entry>
    requires n <= |entries|
  {
    if n == 0 then []
    else Attempts(entries, n - 1) + if entries[n - 1].provision.Mount? then [entries[n - 1]] else []
  }

  function Points(root: string, entries: seq<Entry>): multiset<string> {
    if entries == [] then multiset{}
    else
      var n := |entries| - 1;
      Points(root, entries[..n]) + PointOf(root, entries[n].provision)
  }

  /** The mount point of a provision, if it is a mount. */
  function PointOf(root: string, p: Provision): multiset<string> {
    if p.Mount? then multiset{HostPath(root, p.target)} else multiset{}
  }

  /** The table after the unmounts of the first n entries. */
  function Unmounted(s: State, oks: seq<bool>, n: nat): multiset<string>
    requires n <= |s.provisioned|
  {
    if n == 0 then s.mounts
    else
      Unmounted(s, oks, n - 1) - if Ok(oks, n - 1) then PointOf(s.root, s.provisioned[n - 1].provision) else multiset{}
  }

  function Step(s: State, op: Op): State {
    match op
    case Declare(p) => (match DeclareProvision(s.config, p) case Some(c) => s.(config := c) case None => s)
    case Remove(item) => (match RemoveProvision(s.config, item) case Some(c) => s.(config := c) case None => s)
    case Start(oks) => StartFirst(s, oks, |s.config|)
    case Stop(oks) =>
      s.(provisioned := Kept(s.provisioned, oks, |s.provisioned|), mounts := Unmounted(s, oks, |s.provisioned|))
  }

  // ------------------------------------------------------------------ invariants

  /** The table is what was there before and the mounts on record, one for one. */
  predicate Conserved(s: State) {
    s.mounts == s.base + Points(s.root, s.provisioned)
  }

  /** The record is in reverse order of making. */
  predicate NewestFirst(s: State) {
    && (forall k :: 0 <= k < |s.provisioned| ==> s.provisioned[k].stamp < |s.made| && s.made[s.provisioned[k].stamp] == s.provisioned[k].provision)
    && Descending(s.provisioned)
  }

  predicate UniqueIds(config: seq<Provision>) {
    forall j, k :: 0 <= j < k < |config| ==> GetId(config[j]) != GetId(config[k])
  }

  predicate Inv(s: State) {
    Conserved(s) && NewestFirst(s) && UniqueIds(s.config)
  }

  lemma {:induction false} PointsFront(root: string, e: Entry, entries: seq<Entry>)
    ensures Points(root, [e] + entries) == PointOf(root, e.provision) + Points(root, entries)
  {
    hide PointOf;
    var n := |entries| - 1;
    if entries == [] {
      assert ([e] + entries)[..0] == [];
    } else {
      PointsFront(root, e, entries[..n]);
      assert ([e] + entries)[..n + 1] == [e] + entries[..n];
    }
  }

  lemma PointsBack(root: string, entries: seq<Entry>, e: Entry)
    ensures Points(root, entries + [e]) == Points(root, entries) + PointOf(root, e.provision)
  {
    assert (entries + [e])[..|entries|] == entries;
  }

  lemma MakeKeeps(s: State, p: Provision, ok: bool)
    requires Inv(s)
    ensures Inv(Make(s, p, ok)) && Make(s, p, ok).config == s.config
  {
    hide Points, PointOf, UniqueIds;
    PointsFront(s.root, Entry(p, |s.made|), s.provisioned);
  }

  lemma {:induction false} StartKeeps(s: State, oks: seq<bool>, n: nat)
    requires Inv(s) && n <= |s.config|
    ensures Inv(StartFirst(s, oks, n)) && StartFirst(s, oks, n).config == s.config
  {
    hide Inv, Make;
    if n > 0 {
      StartKeeps(s, oks, n - 1);
      MakeKeeps(StartFirst(s, oks, n - 1), s.config[n - 1], Ok(oks, n - 1));
    }
  }

  /** A start records the provisions that succeeded, the latest first, before what was on record. */
  lemma {:induction false} StartRecords(s: State, oks: seq<bool>, n: nat)
    requires n <= |s.config|
    ensures var t := StartFirst(s, oks, n);
            && |t.made| >= |s.made| && t.made[..|s.made|] == s.made
            && |t.provisioned| == |s.provisioned| + |t.made| - |s.made|
            && t.provisioned[|t.made| - |s.made|..] == s.provisioned
            && t.made[|s.made|..] == Succeeded(s.config, oks, n)
  {
    if n > 0 {
      StartRecords(s, oks, n - 1);
      var t := StartFirst(s, oks, n - 1);
      if Ok(oks, n - 1) {
        var u := StartFirst(s, oks, n);
        assert u.made[|s.made|..] == t.made[|s.made|..] + [s.config[n - 1]];
        assert u.provisioned[|u.made| - |s.made|..] == t.provisioned[|t.made| - |s.made|..];
      }
    }
  }

  function Succeeded(config: seq<Provision>, oks: seq<bool>, n: nat): seq<Provision>
    requires n <= |config|
  {
    if n == 0 then [] else Succeeded(config, oks, n - 1) + if Ok(oks, n - 1) then [config[n - 1]] else []
  }

  /** What is kept and what is taken from the table make up the mounts looked at. */
  lemma {:induction false} UnmountedMeans(s: State, oks: seq<bool>, n: nat)
    requires Conserved(s) && n <= |s.provisioned|
    ensures Unmounted(s, oks, n) + Points(s.root, s.provisioned[..n]) == s.mounts + Points(s.root, Kept(s.provisioned, oks, n))
  {
    hide Points, PointOf;
    if n == 0 {
      assert s.provisioned[..0] == [];
    } else {
      UnmountedMeans(s, oks, n - 1);
      UnmountOne(s, oks, n);
    }
  }

  lemma TakeOrKeep(u: multiset<string>, p: multiset<string>, one: multiset<string>, m: multiset<string>, k: multiset<string>)
    requires u + p == m + k && p + one <= m
    ensures u - one + (p + one) == m + k && u + (p + one) == m + (k + one)
  {
    assert u + (p + one) == u + p + one;
  }

  lemma KeptStep(s: State, oks: seq<bool>, n: nat)
    requires 0 < n <= |s.provisioned|
    ensures var e, kept := s.provisioned[n - 1], Kept(s.provisioned, oks, n - 1);
            && Kept(s.provisioned, oks, n) == (if Stays(e, Ok(oks, n - 1)) then kept + [e] else kept)
            && (!e.provision.Mount? ==> PointOf(s.root, e.provision) == multiset{})
            && Unmounted(s, oks, n) == Unmounted(s, oks, n - 1) - (if Stays(e, Ok(oks, n - 1)) then multiset{} else PointOf(s.root, e.provision))
  {
    var kept := Kept(s.provisioned, oks, n - 1);
    assert kept + [] == kept;
  }

  lemma UnmountOne(s: State, oks: seq<bool>, n: nat)
    requires Conserved(s) && 0 < n <= |s.provisioned|
    requires Unmounted(s, oks, n - 1) + Points(s.root, s.provisioned[..n - 1])
          == s.mounts + Points(s.root, Kept(s.provisioned, oks, n - 1))
    ensures Unmounted(s, oks, n) + Points(s.root, s.provisioned[..n]) == s.mounts + Points(s.root, Kept(s.provisioned, oks, n))
  {
    hide Points, PointOf, Kept, Unmounted;
    var e, kept := s.provisioned[n - 1], Kept(s.provisioned, oks, n - 1);
    assert s.provisioned[..n] == s.provisioned[..n - 1] + [e];
    PointsBack(s.root, s.provisioned[..n - 1], e);
    PointsBack(s.root, kept, e);
    PointsMonotone(s.root, s.provisioned, n);
    TakeOrKeep(Unmounted(s, oks, n - 1), Points(s.root, s.provisioned[..n - 1]), PointOf(s.root, e.provision),
               s.mounts, Points(s.root, kept));
    KeptStep(s, oks, n);
  }

  lemma {:induction false} PointsMonotone(root: string, entries: seq<Entry>, n: nat)
    requires n <= |entries|
    ensures Points(root, entries[..n]) <= Points(root, entries)
    decreases |entries| - n
  {
    if n == |entries| {
      assert entries[..n] == entries;
    } else {
      PointsMonotone(root, entries, n + 1);
      assert entries[..n + 1][..n] == entries[..n];
    }
  }

  /** A stop keeps exactly the mounts whose unmount failed. */
  lemma {:induction false} KeptExactly(entries: seq<Entry>, oks: seq<bool>, n: nat)
    requires n <= |entries|
    ensures forall e :: e in Kept(entries, oks, n) <==> exists k :: 0 <= k < n && e == entries[k] && Stays(e, Ok(oks, k))
  {
    if n > 0 {
      KeptExactly(entries, oks, n - 1);
    }
  }

  predicate Descending(entries: seq<Entry>) {
    forall j, k :: 0 <= j < k < |entries| ==> entries[j].stamp > entries[k].stamp
  }

  lemma {:induction false} KeptDescends(entries: seq<Entry>, oks: seq<bool>, n: nat)
    requires n <= |entries| && Descending(entries)
    ensures Descending(Kept(entries, oks, n))
  {
    if n > 0 {
      KeptDescends(entries, oks, n - 1);
      KeptExactly(entries, oks, n - 1);
      var kept := Kept(entries, oks, n - 1);
      forall j | 0 <= j < |kept| ensures kept[j].stamp > entries[n - 1].stamp {
        assert kept[j] in kept;
      }
    }
  }

  lemma StopKeeps(s: State, oks: seq<bool>)
    requires Inv(s)
    ensures Inv(Step(s, Stop(oks)))
  {
    hide UniqueIds, Kept, Unmounted, Points;
    var n := |s.provisioned|;
    UnmountedMeans(s, oks, n);
    assert s.provisioned[..n] == s.provisioned;
    KeptExactly(s.provisioned, oks, n);
    KeptDescends(s.provisioned, oks, n);
    var kept := Kept(s.provisioned, oks, n);
    assert Unmounted(s, oks, n) == s.base + Points(s.root, kept) by {
      var u, p := Unmounted(s, oks, n), Points(s.root, s.provisioned);
      assert u + p == s.base + Points(s.root, kept) + p;
      assert u == u + p - p;
    }
    forall k | 0 <= k < |kept| ensures kept[k].stamp < |s.made| && s.made[kept[k].stamp] == kept[k].provision {
      assert kept[k] in kept;
    }
  }

  /** An accepted declaration is appended behind the earlier ones; another leaves them as they are. */
  lemma DeclareEffect(s: State, p: Provision)
    ensures var c, d := s.config, Step(s, Declare(p)).config;
            if (exists k :: 0 <= k < |c| && GetId(c[k]) == GetId(p)) then d == c
            else |d| == |c| + 1 && d[|c|] == p && forall k :: 0 <= k < |c| ==> d[k] == c[k]
    ensures var t := Step(s, Declare(p)); t.provisioned == s.provisioned && t.mounts == s.mounts && t.made == s.made
  {
    hide GetId;
  }

  /** A declaration followed by a start in which every call succeeds: the new provision heads the record. */
  lemma DeclaredIsStarted(s: State, p: Provision, oks: seq<bool>)
    requires forall k :: 0 <= k < |s.config| ==> GetId(s.config[k]) != GetId(p)
    requires forall k :: 0 <= k <= |s.config| ==> Ok(oks, k)
    ensures var t := Step(Step(s, Declare(p)), Start(oks));
            && t.provisioned != [] && t.provisioned[0].provision == p
            && (p.Mount? ==> HostPath(s.root, p.target) in t.mounts)
  {
    hide GetId, Place;
    DeclareEffect(s, p);
    var d := Step(s, Declare(p));
    StartBase(d, oks, |s.config|);
    assert d.config[|s.config|] == p && |d.config| == |s.config| + 1;
  }

  /** A start makes exactly the provisions whose calls succeed, in the order of the configuration, on top of the record. */
  lemma StartEffect(s: State, oks: seq<bool>)
    ensures var t := Step(s, Start(oks));
            var n := |Succeeded(s.config, oks, |s.config|)|;
            && t.config == s.config
            && t.made == s.made + Succeeded(s.config, oks, |s.config|)
            && |t.provisioned| == n + |s.provisioned| && t.provisioned[n..] == s.provisioned
            && forall k :: 0 <= k < n ==> t.provisioned[k].provision == Succeeded(s.config, oks, |s.config|)[n - 1 - k]
  {
    StartRecords(s, oks, |s.config|);
    StartReversed(s, oks, |s.config|);
    var t := Step(s, Start(oks));
    assert t.made == t.made[..|s.made|] + t.made[|s.made|..];
  }

  lemma {:induction false} StartReversed(s: State, oks: seq<bool>, n: nat)
    requires n <= |s.config|
    ensures var t, made := StartFirst(s, oks, n), Succeeded(s.config, oks, n);
            && t.config == s.config && |t.provisioned| == |made| + |s.provisioned|
            && forall k :: 0 <= k < |made| ==> t.provisioned[k].provision == made[|made| - 1 - k]
  {
    if n > 0 { StartReversed(s, oks, n - 1); }
  }

  /** A stop keeps, in order, exactly the mounts whose unmount failed, and takes the others from the table. */
  lemma StopEffect(s: State, oks: seq<bool>)
    requires Inv(s)
    ensures var t := Step(s, Stop(oks));
            && t.config == s.config && t.made == s.made
            && (forall e :: e in t.provisioned <==>
                  exists k :: 0 <= k < |s.provisioned| && e == s.provisioned[k] && e.provision.Mount? && !Ok(oks, k))
            && Descending(t.provisioned)
            && t.mounts + Points(s.root, s.provisioned) == s.mounts + Points(s.root, t.provisioned)
  {
    hide Kept, Unmounted, Points, UniqueIds;
    var n := |s.provisioned|;
    KeptExactly(s.provisioned, oks, n);
    KeptDescends(s.provisioned, oks, n);
    UnmountedMeans(s, oks, n);
    assert s.provisioned[..n] == s.provisioned;
  }

  /** A mount point lies under the root, with a separator at the joint. */
  lemma HostPathMeans(root: string, target: string)
    ensures var path := HostPath(root, target);
            && root <= path && |path| >= |target| && path[|path| - |target|..] == target
            && |path| <= |root| + 1 + |target|
            && (root != "" && target != "" ==>
                  if path == root + target then root[|root| - 1] == '/' || target[0] == '/' else path == root + "/" + target)
            && (root == "" || target == "" || root[|root| - 1] == '/' || target[0] == '/' ==> path == root + target)
  {
  }

  lemma DeclareKeeps(config: seq<Provision>, p: Provision)
    requires UniqueIds(config)
    ensures DeclareProvision(config, p).Some? <==> forall k :: 0 <= k < |config| ==> GetId(config[k]) != GetId(p)
    ensures DeclareProvision(config, p).Some? ==> UniqueIds(DeclareProvision(config, p).value)
  {
  }

  /** A removal takes away the one declaration with that id and nothing else. */
  lemma RemoveErases(config: seq<Provision>, item: string)
    requires UniqueIds(config)
    ensures match RemoveProvision(config, item)
            case None => forall k :: 0 <= k < |config| ==> GetId(config[k]) != item
            case Some(left) =>
              && UniqueIds(left)
              && (forall k :: 0 <= k < |left| ==> GetId(left[k]) != item)
              && (forall p :: p in config && GetId(p) != item ==> p in left)
              && |left| == |config| - 1
  {
    hide GetId;
    var k := Place(config, item);
    if k < |config| {
      var left := config[..k] + config[k + 1..];
      assert forall j :: 0 <= j < |left| ==> left[j] == config[if j < k then j else j + 1];
      forall p | p in config && GetId(p) != item ensures p in left {
        var j :| 0 <= j < |config| && config[j] == p;
        assert left[if j < k then j else j - 1] == p;
      }
    }
  }

  /** The operation takes out the one declaration with the id, and leaves everything else alone. */
  lemma RemoveEffect(s: State, item: string)
    requires UniqueIds(s.config)
    ensures var t := Step(s, Remove(item));
            && t.provisioned == s.provisioned && t.mounts == s.mounts && t.made == s.made
            && (forall p :: p in t.config <==> p in s.config && GetId(p) != item)
            && (forall k :: 0 <= k < |s.config| && GetId(s.config[k]) == item ==> t.config == s.config[..k] + s.config[k + 1..])
  {
    hide GetId;
    RemoveErases(s.config, item);
    var k := Place(s.config, item);
    var c := Step(s, Remove(item)).config;
    assert k < |s.config| ==> c == s.config[..k] + s.config[k + 1..];
    assert forall p :: p in c ==> p in s.config;
    forall p | p in c ensures GetId(p) != item {
      var j :| 0 <= j < |c| && c[j] == p;
    }
  }

  lemma StepKeeps(s: State, op: Op)
    requires Inv(s)
    ensures Inv(Step(s, op)) && Step(s, op).base == s.base && Step(s, op).root == s.root
  {
    match op
    case Declare(p) => DeclareKeeps(s.config, p);
    case Remove(item) => RemoveErases(s.config, item);
    case Start(oks) => StartKeeps(s, oks, |s.config|); StartBase(s, oks, |s.config|);
    case Stop(oks) => StopKeeps(s, oks);
  }

  lemma {:induction false} StartBase(s: State, oks: seq<bool>, n: nat)
    requires n <= |s.config|
    ensures StartFirst(s, oks, n).base == s.base && StartFirst(s, oks, n).root == s.root
  {
    if n > 0 { StartBase(s, oks, n - 1); }
  }

  function After(s: State, ops: seq<Op>): State
    decreases ops
  {
    if ops == [] then s else After(Step(s, ops[0]), ops[1..])
  }

  /** In every run, whatever fails: the table is the old one and the mounts on record, and no id is declared twice. */
  lemma {:induction false} EveryRunConserves(s: State, ops: seq<Op>)
    requires Inv(s)
    ensures Inv(After(s, ops)) && After(s, ops).base == s.base && After(s, ops).root == s.root
    decreases ops
  {
    if ops != [] {
      StepKeeps(s, ops[0]);
      EveryRunConserves(Step(s, ops[0]), ops[1..]);
    }
  }

  /** If every unmount succeeds, a stop leaves the table as it was before the first start. */
  lemma {:induction false} CleanStopRestores(s: State, ops: seq<Op>, oks: seq<bool>)
    requires Inv(s) && forall k :: 0 <= k < |After(s, ops).provisioned| ==> Ok(oks, k)
    ensures var t := Step(After(s, ops), Stop(oks)); t.mounts == s.base && t.provisioned == []
  {
    EveryRunConserves(s, ops);
    var u := After(s, ops);
    StopKeeps(u, oks);
    KeptNone(u.provisioned, oks, |u.provisioned|);
  }

  lemma {:induction false} KeptNone(entries: seq<Entry>, oks: seq<bool>, n: nat)
    requires n <= |entries| && forall k :: 0 <= k < n ==> Ok(oks, k)
    ensures Kept(entries, oks, n) == []
  {
    if n > 0 { KeptNone(entries, oks, n - 1); }
  }

  /** A stop attempts every recorded mount once, the most recent first. */
  lemma {:induction false} AttemptsNewestFirst(entries: seq<Entry>, n: nat)
    requires n <= |entries| && Descending(entries)
    ensures forall e :: e in Attempts(entries, n) <==> e in entries[..n] && e.provision.Mount?
    ensures Descending(Attempts(entries, n))
  {
    if n > 0 {
      AttemptsNewestFirst(entries, n - 1);
      assert entries[..n] == entries[..n - 1] + [entries[n - 1]];
      var a := Attempts(entries, n - 1);
      forall j | 0 <= j < |a| ensures a[j].stamp > entries[n - 1].stamp {
        assert a[j] in a;
      }
    }
  }

  // ------------------------------------------------------------------ the object

  /** mMounts stands for the kernel's mount table; mMade and mBase are history. */
  class ZoneProvision {
    var mProvisioningConfig: seq<Provision>
    const mRootPath: string
    var mProvisioned: seq<Entry>
    var mMounts: multiset<string>
    var mMade: seq<Provision>
    ghost const mBase: multiset<string>

    ghost function View(): State
      reads this
    {
      State(mRootPath, mProvisioningConfig, mProvisioned, mMade, mMounts, mBase)
    }

    ghost predicate Valid()
      reads this
    {
      Inv(View())
    }

    /** The loaded configuration holds no two provisions with one id. */
    constructor (rootPath: string, config: seq<Provision>, mounts: multiset<string>)
      requires UniqueIds(config)
      ensures Valid() && View() == State(rootPath, config, [], [], mounts, mounts)
    {
      mRootPath, mProvisioningConfig, mProvisioned, mMounts := rootPath, config, [], mounts;
      mMade, mBase := [], mounts;
    }

    /** None is the exception for a declaration that exists. */
    method Declare(p: Provision) returns (id: Option<string>)
      requires Valid()
      modifies this
      ensures Valid() && View() == Step(old(View()), Op.Declare(p))
      ensures mProvisioningConfig == if id.Some? then old(mProvisioningConfig) + [p] else old(mProvisioningConfig)
      ensures id == if exists q :: q in old(mProvisioningConfig) && GetId(q) == GetId(p) then None else Some(GetId(p))
    {
      hide GetId;
      StepKeeps(View(), Op.Declare(p));
      if Place(mProvisioningConfig, GetId(p)) < |mProvisioningConfig| {
        return None;
      }
      mProvisioningConfig := mProvisioningConfig + [p];
      return Some(GetId(p));
    }

    /** False is the exception for an unknown id. */
    method Remove(item: string) returns (found: bool)
      requires Valid()
      modifies this
      ensures Valid() && View() == Step(old(View()), Op.Remove(item))
      ensures found <==> exists q :: q in old(mProvisioningConfig) && GetId(q) == item
    {
      hide GetId;
      StepKeeps(View(), Op.Remove(item));
      var k := Place(mProvisioningConfig, item);
      if k == |mProvisioningConfig| {
        return false;
      }
      mProvisioningConfig := mProvisioningConfig[..k] + mProvisioningConfig[k + 1..];
      return true;
    }

    method List() returns (items: seq<string>)
      requires Valid()
      ensures items == Ids(mProvisioningConfig)
      ensures forall j, k :: 0 <= j < k < |items| ==> items[j] != items[k]
    {
      hide GetId;
      items := [];
      for k := 0 to |mProvisioningConfig|
        invariant items == Ids(mProvisioningConfig[..k])
      {
        items := items + [GetId(mProvisioningConfig[k])];
      }
      assert mProvisioningConfig[..|mProvisioningConfig|] == mProvisioningConfig;
    }

    /** The system call for one provision: a mount enters the table if it succeeds. */
    method Perform(p: Provision, ok: bool) returns (done: bool)
      modifies this`mMounts
      ensures done == ok && mMounts == if ok then old(mMounts) + PointOf(mRootPath, p) else old(mMounts)
    {
      done := ok;
      if ok && p.Mount? {
        mMounts := mMounts + multiset{HostPath(mRootPath, p.target)};
      }
    }

    /** umount: if it succeeds, one mount at that point goes. */
    method Umount(p: Provision, ok: bool) returns (done: bool)
      requires p.Mount?
      modifies this`mMounts
      ensures done == ok && mMounts == if ok then old(mMounts) - PointOf(mRootPath, p) else old(mMounts)
    {
      done := ok;
      if ok {
        mMounts := mMounts - multiset{HostPath(mRootPath, p.target)};
      }
    }

    method Start(oks: seq<bool>)
      requires Valid()
      modifies this
      ensures Valid() && View() == Step(old(View()), Op.Start(oks))
    {
      hide Inv, UniqueIds, PointOf;
      StepKeeps(View(), Op.Start(oks));
      ghost var was := View();
      for k := 0 to |mProvisioningConfig|
        invariant mProvisioningConfig == was.config && View() == StartFirst(was, oks, k)
      {
        var p := mProvisioningConfig[k];
        var done := Perform(p, Ok(oks, k));
        if done {
          mProvisioned := [Entry(p, |mMade|)] + mProvisioned;
          mMade := mMade + [p];
        }
      }
    }

    /** The returned list is the entries whose unmount was attempted. */
    method Stop(oks: seq<bool>) returns (attempts: seq<Entry>)
      requires Valid()
      modifies this
      ensures Valid() && View() == Step(old(View()), Op.Stop(oks))
      ensures attempts == Attempts(old(mProvisioned), |old(mProvisioned)|)
    {
      hide Inv, UniqueIds, PointOf, Kept, Attempts, Unmounted;
      StopView(View(), oks);
      ghost var was := View();
      var entries := mProvisioned;
      var kept := [];
      attempts := [];
      for k := 0 to |entries|
        invariant entries == was.provisioned
        invariant View() == was.(mounts := Unmounted(was, oks, k))
        invariant kept == Kept(entries, oks, k) && attempts == Attempts(entries, k)
      {
        StopTurn(was, oks, k);
        var entry := entries[k];
        var gone := true;
        if entry.provision.Mount? {
          attempts := attempts + [entry];
          gone := Umount(entry.provision, Ok(oks, k));
        }
        if !gone {
          kept := kept + [entry];
        }
      }
      mProvisioned := kept;
    }
  }

  lemma StopView(s: State, oks: seq<bool>)
    requires Inv(s)
    ensures Inv(Step(s, Op.Stop(oks)))
    ensures Kept(s.provisioned, oks, 0) == [] && Attempts(s.provisioned, 0) == []
    ensures s == s.(mounts := Unmounted(s, oks, 0))
  {
    StepKeeps(s, Op.Stop(oks));
  }

  /** One turn of the loop in Stop. */
  lemma StopTurn(s: State, oks: seq<bool>, k: nat)
    requires k < |s.provisioned|
    ensures var e, ok, u := s.provisioned[k], Ok(oks, k), Unmounted(s, oks, k);
            && Unmounted(s, oks, k + 1) == (if e.provision.Mount? && ok then u - PointOf(s.root, e.provision) else u)
            && Kept(s.provisioned, oks, k + 1) == Kept(s.provisioned, oks, k) + (if Stays(e, ok) then [e] else [])
            && Attempts(s.provisioned, k + 1) == Attempts(s.provisioned, k) + (if e.provision.Mount? then [e] else [])
  {
  }

}
