/**
 * User-namespace ID maps: UserNSConfig (libs/lxcpp/userns-config.cpp) and the
 * uid_map and gid_map text of SetupUserNS (libs/lxcpp/commands/setup-userns.cpp).
 */
module UserNS {
  import opened Options
  import opened Texts

  const MAX_ID := 0xFFFF_FFFF
  const MAX_MAPS := 5

  type Uint32 = x: int | 0 <= x <= MAX_ID

  /** Container ID start, host ID start, number of IDs. */
  datatype Range = Range(cont: Uint32, host: Uint32, num: Uint32)

  datatype Verdict = Correct | TooMany | OutOfRange | Overlaps

  function Wrap(x: int): Uint32 {
    x % (MAX_ID + 1)
  }

  /** The code's test of an ID against a range start and size; the end wraps. */
  predicate Hits(min: Uint32, size: Uint32, id: Uint32) {
    min <= id <= Wrap(min + size - 1)
  }

  predicate HitsStart(r: Range, added: Range) {
    Hits(r.cont, r.num, added.cont) || Hits(r.host, r.num, added.host)
  }

  function Verdicts(maps: seq<Range>, r: Range): Verdict {
    if |maps| >= MAX_MAPS then TooMany
    else if r.cont > MAX_ID - r.num || r.host > MAX_ID - r.num then OutOfRange
    else if exists k :: 0 <= k < |maps| && HitsStart(maps[k], r) then Overlaps
    else Correct
  }

  /** convContToHostID: first match, 32-bit arithmetic. */
  function Convert(maps: seq<Range>, id: Uint32): Option<Uint32> {
    if maps == [] then Some(id) else Search(maps, id)
  }

  function Search(maps: seq<Range>, id: Uint32): Option<Uint32> {
    if maps == [] then None
    else if Hits(maps[0].cont, maps[0].num, id) then Some(Wrap(maps[0].host + Wrap(id - maps[0].cont)))
    else Search(maps[1..], id)
  }

  // -------------------------------------------------------- what ranges mean

  predicate InCont(r: Range, id: int) {
    r.cont <= id < r.cont + r.num
  }

  predicate InHost(r: Range, id: int) {
    r.host <= id < r.host + r.num
  }

  predicate Fits(r: Range) {
    r.cont + r.num <= MAX_ID && r.host + r.num <= MAX_ID
  }

  /** The list was built by additions that were all accepted. */
  predicate Built(maps: seq<Range>) {
    forall k :: 0 <= k < |maps| ==> Verdicts(maps[..k], maps[k]) == Correct
  }

  predicate Apart(a: Range, b: Range) {
    && (a.cont + a.num <= b.cont || b.cont + b.num <= a.cont)
    && (a.host + a.num <= b.host || b.host + b.num <= a.host)
  }

  predicate Disjoint(maps: seq<Range>) {
    forall j, k :: 0 <= j < k < |maps| ==> Apart(maps[j], maps[k])
  }

  predicate Solid(maps: seq<Range>) {
    forall k :: 0 <= k < |maps| ==> maps[k].num >= 1
  }

  /** `id` in the container is `host` outside, by some range. */
  predicate Translates(maps: seq<Range>, id: int, host: int) {
    exists k :: 0 <= k < |maps| && TranslatesBy(maps[k], id, host)
  }

  predicate TranslatesBy(r: Range, id: int, host: int) {
    InCont(r, id) && host - r.host == id - r.cont
  }

  /** The wrapped test is the plain one, but for the empty range at 0, which hits every ID. */
  lemma HitsMeans(min: Uint32, size: Uint32, id: Uint32)
    requires min + size <= MAX_ID
    ensures Hits(min, size, id) <==> min <= id < min + size || (min == 0 && size == 0)
  {
  }

  lemma BuiltFits(maps: seq<Range>, k: nat)
    requires Built(maps) && k < |maps|
    ensures Fits(maps[k]) && k < MAX_MAPS
  {
    assert Verdicts(maps[..k], maps[k]) == Correct;
  }

  lemma AddedIsBuilt(maps: seq<Range>, r: Range)
    requires Built(maps) && Verdicts(maps, r) == Correct
    ensures Built(maps + [r])
  {
    var more := maps + [r];
    forall k | 0 <= k < |more| ensures Verdicts(more[..k], more[k]) == Correct {
      assert more[..k] == maps[..k];
      assert maps[..|maps|] == maps;
    }
  }

  /**
   * A range is accepted exactly if fewer than five are configured, it ends below 2^32, its starts lie
   * in no configured range, and no configured range is an empty one at 0 on either side.
   */
  lemma AcceptedExactly(maps: seq<Range>, r: Range)
    requires Built(maps)
    ensures Verdicts(maps, r) == Correct <==>
              && |maps| < 5 && r.cont + r.num < 0x1_0000_0000 && r.host + r.num < 0x1_0000_0000
              && (forall k :: 0 <= k < |maps| ==> !InCont(maps[k], r.cont) && !InHost(maps[k], r.host))
              && (forall k :: 0 <= k < |maps| && maps[k].num == 0 ==> maps[k].cont != 0 && maps[k].host != 0)
    ensures Verdicts(maps, r) == TooMany <==> |maps| >= 5
    ensures Verdicts(maps, r) == OutOfRange <==>
              |maps| < 5 && (r.cont + r.num >= 0x1_0000_0000 || r.host + r.num >= 0x1_0000_0000)
  {
    forall k: nat | k < |maps|
      ensures HitsStart(maps[k], r) <==>
                InCont(maps[k], r.cont) || InHost(maps[k], r.host) ||
                (maps[k].num == 0 && (maps[k].cont == 0 || maps[k].host == 0))
    {
      BuiltFits(maps, k);
      HitsMeans(maps[k].cont, maps[k].num, r.cont);
      HitsMeans(maps[k].host, maps[k].num, r.host);
    }
  }

  /** What the check does promise: no accepted range starts inside an earlier one, on either side. */
  lemma LaterStartsOutside(maps: seq<Range>, j: nat, k: nat)
    requires Built(maps) && j < k < |maps|
    ensures !InCont(maps[j], maps[k].cont) && !InHost(maps[j], maps[k].host)
  {
    BuiltFits(maps, j);
    assert Verdicts(maps[..k], maps[k]) == Correct;
    assert maps[..k][j] == maps[j];
    assert !HitsStart(maps[j], maps[k]);
    HitsMeans(maps[j].cont, maps[j].num, maps[k].cont);
    HitsMeans(maps[j].host, maps[j].num, maps[k].host);
  }

  /** No configured range starts inside the new one: what the code does not look at. */
  predicate NoStartInside(maps: seq<Range>, r: Range) {
    forall j :: 0 <= j < |maps| ==> !InCont(r, maps[j].cont) && !InHost(r, maps[j].host)
  }

  /** An accepted addition keeps the ranges disjoint exactly when no configured range starts inside the new one. */
  lemma AddKeepsDisjointExactly(maps: seq<Range>, r: Range)
    requires Built(maps) && Disjoint(maps) && Solid(maps) && r.num >= 1
    requires Verdicts(maps, r) == Correct
    ensures Disjoint(maps + [r]) <==> NoStartInside(maps, r)
  {
    var more := maps + [r];
    AddedIsBuilt(maps, r);
    forall j: nat | j < |maps|
      ensures Apart(maps[j], r) <==> !InCont(r, maps[j].cont) && !InHost(r, maps[j].host)
    {
      LaterStartsOutside(more, j, |maps|);
    }
    if Disjoint(more) {
      forall j: nat | j < |maps| ensures !InCont(r, maps[j].cont) && !InHost(r, maps[j].host) {
        assert Apart(more[j], more[|maps|]);
      }
    }
  }

  /** Over a whole list: disjoint exactly when no earlier range starts inside a later one. */
  lemma {:induction false} DisjointExactly(maps: seq<Range>)
    requires Built(maps) && Solid(maps)
    ensures Disjoint(maps) <==>
              forall j, k :: 0 <= j < k < |maps| ==> !InCont(maps[k], maps[j].cont) && !InHost(maps[k], maps[j].host)
  {
    forall j: nat, k: nat | j < k < |maps|
      ensures Apart(maps[j], maps[k]) <==> !InCont(maps[k], maps[j].cont) && !InHost(maps[k], maps[j].host)
    {
      LaterStartsOutside(maps, j, k);
    }
  }

  /** Ranges added in increasing order are disjoint. */
  lemma {:induction false} AscendingAreDisjoint(maps: seq<Range>)
    requires Built(maps) && Solid(maps)
    requires forall j, k :: 0 <= j < k < |maps| ==> maps[j].cont < maps[k].cont && maps[j].host < maps[k].host
    ensures Disjoint(maps)
  {
    DisjointExactly(maps);
  }

  /** Overlap is accepted when the lower range comes second. */
  lemma OverlapIsAccepted()
    ensures var maps := [Range(100, 1100, 10), Range(95, 1095, 10)];
            Built(maps) && Solid(maps) && !Disjoint(maps) && InCont(maps[0], 100) && InCont(maps[1], 100)
  {
    var a, b := Range(100, 1100, 10), Range(95, 1095, 10);
    var maps := [a, b];
    assert maps[..0] == [] && maps[..1] == [a];
    assert !Apart(maps[0], maps[1]);
  }

  // ----------------------------------------------------------------- translation

  /** The empty range at 0, whose end wraps around to the last ID. */
  predicate IsTrap(r: Range) {
    r.cont == 0 && r.num == 0
  }

  predicate NoTraps(maps: seq<Range>) {
    forall k :: 0 <= k < |maps| ==> !IsTrap(maps[k])
  }

  predicate Mapped(maps: seq<Range>, id: int) {
    exists k :: 0 <= k < |maps| && InCont(maps[k], id)
  }

  lemma {:induction false} SearchHits(maps: seq<Range>, id: Uint32)
    requires forall k :: 0 <= k < |maps| ==> Fits(maps[k])
    ensures Search(maps, id).Some? <==> Mapped(maps, id) || !NoTraps(maps)
  {
    if maps != [] {
      var r, rest := maps[0], maps[1..];
      HitsMeans(r.cont, r.num, id);
      SearchHits(rest, id);
      assert forall k :: 0 <= k < |rest| ==> rest[k] == maps[k + 1];
      if Mapped(rest, id) {
        var k :| 0 <= k < |rest| && InCont(rest[k], id);
        assert InCont(maps[k + 1], id);
      }
      if !NoTraps(rest) {
        var k :| 0 <= k < |rest| && IsTrap(rest[k]);
        assert IsTrap(maps[k + 1]);
      }
    }
  }

  /** Exactly the IDs of the configured ranges are translated, unless one of the ranges is the empty one at 0. */
  lemma MappedExactly(maps: seq<Range>)
    requires Built(maps) && maps != []
    ensures (forall id: Uint32 :: Convert(maps, id).Some? <==> Mapped(maps, id)) <==> NoTraps(maps)
  {
    forall k | 0 <= k < |maps| ensures Fits(maps[k]) { BuiltFits(maps, k); }
    forall id: Uint32 ensures Convert(maps, id).Some? <==> Mapped(maps, id) || !NoTraps(maps) {
      SearchHits(maps, id);
    }
    if !NoTraps(maps) {
      var last: Uint32 := MAX_ID;
      assert Convert(maps, last).Some? && !Mapped(maps, last);
    }
  }

  /** An accepted list with the empty range at 0: an ID of no range is translated. */
  lemma TrapTakesOver()
    ensures var maps := [Range(5, 5, 3), Range(0, 100, 0)];
            Built(maps) && !Mapped(maps, 77) && Convert(maps, 77) == Some(177)
  {
    var a, b := Range(5, 5, 3), Range(0, 100, 0);
    var maps := [a, b];
    assert maps[..0] == [] && maps[..1] == [a] && maps[1..] == [b];
    assert Search([b], 77) == Some(177);
  }

  /** A translation comes from a range, and there is one exactly for the mapped IDs. */
  lemma {:induction false} SearchSound(maps: seq<Range>, id: Uint32)
    requires NoTraps(maps) && forall k :: 0 <= k < |maps| ==> Fits(maps[k])
    ensures match Search(maps, id)
            case None => forall k :: 0 <= k < |maps| ==> !InCont(maps[k], id)
            case Some(h) => Translates(maps, id, h)
  {
    if maps != [] {
      var r := maps[0];
      HitsMeans(r.cont, r.num, id);
      if InCont(r, id) {
        assert TranslatesBy(maps[0], id, Search(maps, id).value);
      } else {
        SearchSound(maps[1..], id);
        if Search(maps[1..], id).Some? {
          var k :| 0 <= k < |maps[1..]| && TranslatesBy(maps[1..][k], id, Search(maps, id).value);
          assert TranslatesBy(maps[k + 1], id, Search(maps, id).value);
        } else {
          forall k | 0 <= k < |maps| ensures !InCont(maps[k], id) {
            if k > 0 { assert maps[k] == maps[1..][k - 1]; }
          }
        }
      }
    }
  }

  /** Over disjoint ranges the relation is a function and one-to-one. */
  lemma TranslatesOneToOne(maps: seq<Range>, a: int, b: int, x: int, y: int)
    requires Disjoint(maps) && Translates(maps, a, x) && Translates(maps, b, y)
    ensures a == b <==> x == y
  {
    var j :| 0 <= j < |maps| && TranslatesBy(maps[j], a, x);
    var k :| 0 <= k < |maps| && TranslatesBy(maps[k], b, y);
    assert j != k ==> Apart(maps[j], maps[k]) || Apart(maps[k], maps[j]);
  }

  /** The search finds what the ranges say, and nothing else. */
  lemma ConvertIsTranslates(maps: seq<Range>, id: Uint32, host: Uint32)
    requires Built(maps) && NoTraps(maps) && Disjoint(maps) && maps != []
    ensures Convert(maps, id) == Some(host) <==> Translates(maps, id, host)
    ensures Convert(maps, id) == Some(host) ==> host < MAX_ID
  {
    forall k | 0 <= k < |maps| ensures Fits(maps[k]) { BuiltFits(maps, k); }
    SearchSound(maps, id);
    if Search(maps, id).Some? && Translates(maps, id, host) {
      TranslatesOneToOne(maps, id, id, Search(maps, id).value, host);
    }
  }

  /** No two container IDs share a host ID. */
  lemma ConvertInjective(maps: seq<Range>, a: Uint32, b: Uint32)
    requires Built(maps) && NoTraps(maps) && Disjoint(maps)
    requires Convert(maps, a).Some? && Convert(maps, a) == Convert(maps, b)
    ensures a == b
  {
    if maps != [] {
      var h := Convert(maps, a).value;
      ConvertIsTranslates(maps, a, h);
      ConvertIsTranslates(maps, b, h);
      TranslatesOneToOne(maps, a, b, h, h);
    }
  }

  /** An empty range is a trap exactly when it starts at 0: then it translates every ID. */
  lemma EmptyRange(r: Range, id: Uint32)
    requires Built([r]) && r.num == 0
    ensures Convert([r], id) == if r.cont == 0 then Some(Wrap(r.host + id)) else None
  {
    BuiltFits([r], 0);
    HitsMeans(r.cont, r.num, id);
    assert Wrap(id) == id && [r][1..] == [];
    assert Search([r][1..], id) == None;
  }

  // ------------------------------------------------------------------- the text

  function Line(r: Range): string {
    ToString(r.cont) + " " + ToString(r.host) + " " + ToString(r.num) + "\n"
  }

  function MapText(maps: seq<Range>): string {
    if maps == [] then "" else MapText(maps[..|maps| - 1]) + Line(maps[|maps| - 1])
  }

  /** A reader of the text, line by line and field by field. */
  function ParseMap(s: string): Option<seq<Range>>
    decreases |s|
  {
    if s == "" then Some([])
    else
      var n := Find(s, '\n');
      if n == |s| then None
      else
        var first, rest := ParseLine(s[..n]), ParseMap(s[n + 1..]);
        if first.None? || rest.None? then None else Some([first.value] + rest.value)
  }

  function ParseLine(s: string): Option<Range> {
    var i := Find(s, ' ');
    if i == |s| then None
    else
      var t := s[i + 1..];
      var j := Find(t, ' ');
      if j == |t| then None
      else
        match (ParseNum(s[..i]), ParseNum(t[..j]), ParseNum(t[j + 1..]))
        case (Some(c), Some(h), Some(n)) => if c <= MAX_ID && h <= MAX_ID && n <= MAX_ID then Some(Range(c, h, n)) else None
        case _ => None
  }

  function Fields(r: Range): string {
    ToString(r.cont) + " " + ToString(r.host) + " " + ToString(r.num)
  }

  lemma ThreeFields(c: string, h: string, n: string)
    requires ' ' !in c && ' ' !in h
    ensures var s := c + " " + h + " " + n;
            var i := Find(s, ' ');
            && i == |c| && s[..i] == c
            && var t := s[i + 1..];
            var j := Find(t, ' ');
            j == |h| && t[..j] == h && t[j + 1..] == n
  {
    var s := c + " " + h + " " + n;
    assert s == c + [' '] + (h + " " + n);
    FindIs(c, ' ', h + " " + n);
    assert h + " " + n == h + [' '] + n;
    FindIs(h, ' ', n);
  }

  lemma LineBack(r: Range)
    ensures Line(r) == Fields(r) + "\n" && '\n' !in Fields(r) && ParseLine(Fields(r)) == Some(r)
  {
    hide ToString, ParseNum, Find;
    ThreeFields(ToString(r.cont), ToString(r.host), ToString(r.num));
    ParsePrinted(r.cont);
    ParsePrinted(r.host);
    ParsePrinted(r.num);
  }

  lemma {:induction false} MapTextFront(maps: seq<Range>)
    requires maps != []
    ensures MapText(maps) == Line(maps[0]) + MapText(maps[1..])
  {
    hide Line;
    if |maps| == 1 {
      assert maps[..0] == [] && maps[1..] == [];
    } else {
      var front, last := maps[..|maps| - 1], maps[|maps| - 1];
      MapTextFront(front);
      assert maps[1..][..|maps[1..]| - 1] == front[1..];
      assert Line(maps[0]) + MapText(front[1..]) + Line(last) == Line(maps[0]) + (MapText(front[1..]) + Line(last));
    }
  }

  /** The printed text read back line by line is the list of ranges, so it defines the same translation. */
  lemma {:induction false} MapTextBack(maps: seq<Range>)
    ensures ParseMap(MapText(maps)) == Some(maps)
  {
    hide Fields, ParseLine, Find;
    if maps != [] {
      var r, rest := maps[0], maps[1..];
      MapTextFront(maps);
      LineBack(r);
      MapTextBack(rest);
      assert MapText(maps) == Fields(r) + ['\n'] + MapText(rest);
      FindIs(Fields(r), '\n', MapText(rest));
      assert [r] + rest == maps;
    }
  }

  // ----------------------------------------------------------------- the objects

  class UserNSConfig {
    var mUIDMaps: seq<Range>
    var mGIDMaps: seq<Range>

    constructor ()
      ensures mUIDMaps == [] && mGIDMaps == []
    {
      mUIDMaps, mGIDMaps := [], [];
    }

    method AddUIDMap(contID: Uint32, hostID: Uint32, num: Uint32) returns (v: Verdict)
      modifies this`mUIDMaps
      ensures v == Verdicts(old(mUIDMaps), Range(contID, hostID, num))
      ensures mUIDMaps == if v == Correct then old(mUIDMaps) + [Range(contID, hostID, num)] else old(mUIDMaps)
      ensures old(Built(mUIDMaps)) ==> Built(mUIDMaps)
    {
      v := AssertMapCorrect(mUIDMaps, contID, hostID, num);
      if v == Correct {
        if Built(mUIDMaps) {
          AddedIsBuilt(mUIDMaps, Range(contID, hostID, num));
        }
        mUIDMaps := mUIDMaps + [Range(contID, hostID, num)];
      }
    }

    method AddGIDMap(contID: Uint32, hostID: Uint32, num: Uint32) returns (v: Verdict)
      modifies this`mGIDMaps
      ensures v == Verdicts(old(mGIDMaps), Range(contID, hostID, num))
      ensures mGIDMaps == if v == Correct then old(mGIDMaps) + [Range(contID, hostID, num)] else old(mGIDMaps)
      ensures old(Built(mGIDMaps)) ==> Built(mGIDMaps)
    {
      v := AssertMapCorrect(mGIDMaps, contID, hostID, num);
      if v == Correct {
        if Built(mGIDMaps) {
          AddedIsBuilt(mGIDMaps, Range(contID, hostID, num));
        }
        mGIDMaps := mGIDMaps + [Range(contID, hostID, num)];
      }
    }

    /** None is the exception for an unmapped ID. */
    function ConvContToHostUID(contID: Uint32): (h: Option<Uint32>)
      reads this
      ensures mUIDMaps == [] ==> h == Some(contID)
      ensures Built(mUIDMaps) && mUIDMaps != [] && NoTraps(mUIDMaps) ==> (h.Some? <==> Mapped(mUIDMaps, contID))
      ensures Built(mUIDMaps) && mUIDMaps != [] && NoTraps(mUIDMaps) && h.Some? ==> Translates(mUIDMaps, contID, h.value)
    {
      ConvertMeans(mUIDMaps, contID);
      Convert(mUIDMaps, contID)
    }

    function ConvContToHostGID(contID: Uint32): (h: Option<Uint32>)
      reads this
      ensures mGIDMaps == [] ==> h == Some(contID)
      ensures Built(mGIDMaps) && mGIDMaps != [] && NoTraps(mGIDMaps) ==> (h.Some? <==> Mapped(mGIDMaps, contID))
      ensures Built(mGIDMaps) && mGIDMaps != [] && NoTraps(mGIDMaps) && h.Some? ==> Translates(mGIDMaps, contID, h.value)
    {
      ConvertMeans(mGIDMaps, contID);
      Convert(mGIDMaps, contID)
    }
  }

  /** Every ID is itself without maps; else it is translated by a range exactly if one holds it. */
  lemma ConvertMeans(maps: seq<Range>, id: Uint32)
    ensures maps == [] ==> Convert(maps, id) == Some(id)
    ensures Built(maps) && maps != [] && NoTraps(maps) ==> (Convert(maps, id).Some? <==> Mapped(maps, id))
    ensures Built(maps) && maps != [] && NoTraps(maps) && Convert(maps, id).Some? ==>
              Translates(maps, id, Convert(maps, id).value)
  {
    if Built(maps) && maps != [] && NoTraps(maps) {
      forall k | 0 <= k < |maps| ensures Fits(maps[k]) { BuiltFits(maps, k); }
      SearchHits(maps, id);
      SearchSound(maps, id);
    }
  }

  method AssertMapCorrect(maps: seq<Range>, contID: Uint32, hostID: Uint32, num: Uint32) returns (v: Verdict)
    ensures v == Verdicts(maps, Range(contID, hostID, num))
  {
    var r := Range(contID, hostID, num);
    if |maps| >= MAX_MAPS {
      return TooMany;
    }
    var max := MAX_ID;
    if contID > max - num || hostID > max - num {
      return OutOfRange;
    }
    for k := 0 to |maps|
      invariant forall j :: 0 <= j < k ==> !HitsStart(maps[j], r)
    {
      var contMax := Wrap(maps[k].cont + maps[k].num - 1);
      var hostMax := Wrap(maps[k].host + maps[k].num - 1);
      if maps[k].cont <= contID <= contMax || maps[k].host <= hostID <= hostMax {
        assert HitsStart(maps[k], r);
        return Overlaps;
      }
    }
    return Correct;
  }

  /** The loop that both maps are printed with. */
  method PrintMap(maps: seq<Range>) returns (text: string)
    ensures text == MapText(maps) && ParseMap(text) == Some(maps)
    ensures text == "" <==> maps == []
  {
    hide ToString;
    text := "";
    for k := 0 to |maps|
      invariant text == MapText(maps[..k])
    {
      ghost var was := text;
      text := text + ToString(maps[k].cont);
      text := text + " ";
      text := text + ToString(maps[k].host);
      text := text + " ";
      text := text + ToString(maps[k].num);
      text := text + "\n";
      assert maps[..k + 1][..k] == maps[..k];
      assert text == was + Line(maps[k]);
    }
    assert maps[..|maps|] == maps;
    MapTextBack(maps);
  }

  /** SetupUserNS::execute: what is saved to the two proc files; an empty map is not written. */
  method Execute(config: UserNSConfig) returns (uidMap: Option<string>, gidMap: Option<string>)
    ensures uidMap == if config.mUIDMaps == [] then None else Some(MapText(config.mUIDMaps))
    ensures gidMap == if config.mGIDMaps == [] then None else Some(MapText(config.mGIDMaps))
    ensures uidMap.Some? ==> ParseMap(uidMap.value) == Some(config.mUIDMaps)
    ensures gidMap.Some? ==> ParseMap(gidMap.value) == Some(config.mGIDMaps)
  {
    var uid := PrintMap(config.mUIDMaps);
    uidMap := if |uid| > 0 then Some(uid) else None;
    var gid := PrintMap(config.mGIDMaps);
    gidMap := if |gid| > 0 then Some(gid) else None;
  }
}
