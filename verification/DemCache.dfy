/** The cache of elevation models of one body: `map_dem_pixel` and `map_dem_cache` of
    libraries/support/demlib.cpp. */
module DemCache {
  import opened Numbers
  import opened DemIndex

  datatype Pixel = Pixel(alt: real, nmap: (real, real, real))

  type Image = seq<seq<Pixel>>

  /** What a model holds in memory: nothing, or its image, and the time it was loaded. */
  datatype Slot = Slot(utc: real, pixel: Image)

  predicate IsImage(d: Dem, image: Image) {
    |image| == d.ycount && forall r | 0 <= r < |image| :: |image[r]| == d.xcount
  }

  // ----- The budget -----

  /** The bytes of a loaded model: a row pointer of 8 bytes and 16 bytes a pixel. */
  function SizeOf(d: Dem): nat {
    d.ycount * (8 + d.xcount * 16)
  }

  function LoadedSize(d: Dem, s: Slot): nat {
    if s.pixel == [] then 0 else SizeOf(d)
  }

  /** The bytes of all loaded models. */
  function TotalSize(dems: seq<Dem>, slots: seq<Slot>): nat
    requires |dems| == |slots|
  {
    if dems == [] then 0 else LoadedSize(dems[0], slots[0]) + TotalSize(dems[1..], slots[1..])
  }

  lemma {:induction false} TotalAfterChange(dems: seq<Dem>, slots: seq<Slot>, i: nat, s: Slot)
    requires i < |dems| == |slots|
    ensures TotalSize(dems, slots[i := s])
              == TotalSize(dems, slots) - LoadedSize(dems[i], slots[i]) + LoadedSize(dems[i], s)
  {
    if i == 0 {
      assert slots[0 := s][1..] == slots[1..];
    } else {
      assert slots[i := s][1..] == slots[1..][i - 1 := s];
      TotalAfterChange(dems[1..], slots[1..], i - 1, s);
    }
  }

  lemma {:induction false} NothingLoaded(dems: seq<Dem>, slots: seq<Slot>)
    requires |dems| == |slots| && forall i | 0 <= i < |slots| :: slots[i].pixel == []
    ensures TotalSize(dems, slots) == 0
  {
    if dems != [] {
      NothingLoaded(dems[1..], slots[1..]);
    }
  }

  // ----- The models that lookups load -----

  /** A lookup: a point, and the resolution asked for. */
  datatype Query = Query(lon: real, lat: real, res: real)

  predicate InRange(lon: real, lat: real) {
    -PI / 2.0 <= lat <= PI && -PI <= lon <= PI
  }

  /** The models of the point's cell that match it. */
  function Found(dems: seq<Dem>, lon: real, lat: real): (m: seq<nat>)
    ensures forall k | 0 <= k < |m| :: m[k] < |dems|
  {
    Matches(dems, CellList(dems, |dems|, CellRow(lat), CellColumn(lon)), lon, lat)
  }

  /** What the lookup chooses is no larger than the budget. */
  ghost predicate Fits(dems: seq<Dem>, q: Query, budget: nat)
    requires Sized(dems)
  {
    forall i: nat | i < |dems| && AsksFor(dems, q, i) :: SizeOf(dems[i]) <= budget
  }

  /** The lookup chooses model i. */
  ghost predicate AsksFor(dems: seq<Dem>, q: Query, i: int)
    requires Sized(dems)
  {
    InRange(q.lon, q.lat) && Chosen(dems, Found(dems, q.lon, q.lat), q.res, i)
  }

  /** Some lookup does. */
  ghost predicate Choosable(dems: seq<Dem>, i: nat)
    requires Sized(dems)
  {
    exists q :: AsksFor(dems, q, i)
  }

  /** Which models some lookup chooses. */
  ghost function Used(dems: seq<Dem>): (used: seq<bool>)
    requires Sized(dems)
    ensures |used| == |dems| && forall i | 0 <= i < |dems| :: used[i] <==> Choosable(dems, i)
  {
    seq(|dems|, i requires 0 <= i < |dems| => Choosable(dems, i))
  }

  lemma AskedIsUsed(dems: seq<Dem>, q: Query, i: nat)
    requires Sized(dems) && i < |dems| && AsksFor(dems, q, i)
    ensures Used(dems)[i]
  {
    hide AsksFor, Used;
  }

  lemma NoneAsked(dems: seq<Dem>, q: Query)
    requires Sized(dems) && (!InRange(q.lon, q.lat) || Found(dems, q.lon, q.lat) == [])
    ensures forall i: nat :: !AsksFor(dems, q, i)
  {
    hide Found;
  }

  lemma FitsOne(dems: seq<Dem>, q: Query, budget: nat, i: nat)
    requires Sized(dems) && Fits(dems, q, budget) && i < |dems| && AsksFor(dems, q, i)
    ensures SizeOf(dems[i]) <= budget
  {
  }

  lemma FitsAsked(dems: seq<Dem>, q: Query, i: nat, budget: nat)
    requires Sized(dems) && i < |dems| && AsksFor(dems, q, i) && SizeOf(dems[i]) <= budget
    ensures Fits(dems, q, budget)
  {
    OneAsked(dems, q, i);
    hide AsksFor, SizeOf;
  }

  lemma FitsMore(dems: seq<Dem>, q: Query, small: nat, large: nat)
    requires Sized(dems) && Fits(dems, q, small) && small <= large
    ensures Fits(dems, q, large)
  {
    hide AsksFor, SizeOf;
  }

  lemma AsksForOne(dems: seq<Dem>, q: Query, i: nat, j: int)
    requires Sized(dems) && AsksFor(dems, q, i) && AsksFor(dems, q, j)
    ensures i == j
  {
    var m := Found(dems, q.lon, q.lat);
    hide ChosenAt, Found;
    var k: nat :| k < |m| && i == m[k] && ChosenAt(dems, m, q.res, k);
    ChoiceIsOne(dems, m, q.res, j, k);
  }

  lemma OneAsked(dems: seq<Dem>, q: Query, i: nat)
    requires Sized(dems) && AsksFor(dems, q, i)
    ensures forall j: nat :: AsksFor(dems, q, j) <==> i == j
  {
    hide AsksFor;
    forall j: nat
      ensures AsksFor(dems, q, j) <==> i == j
    {
      if AsksFor(dems, q, j) {
        AsksForOne(dems, q, i, j);
      }
    }
  }

  /** The bytes of all used models. */
  function AllSizes(dems: seq<Dem>, used: seq<bool>): nat
    requires |dems| == |used|
  {
    if dems == [] then 0 else (if used[0] then SizeOf(dems[0]) else 0) + AllSizes(dems[1..], used[1..])
  }

  /** Only used models are loaded. */
  predicate OnlyUsed(used: seq<bool>, slots: seq<Slot>)
    requires |used| == |slots|
  {
    forall i | 0 <= i < |slots| && slots[i].pixel != [] :: used[i]
  }

  lemma UsedAfterChange(used: seq<bool>, slots: seq<Slot>, i: nat, s: Slot)
    requires i < |used| == |slots| && OnlyUsed(used, slots) && (used[i] || s.pixel == [])
    ensures OnlyUsed(used, slots[i := s])
  {
  }

  lemma {:induction false} AllLoaded(dems: seq<Dem>, used: seq<bool>, slots: seq<Slot>)
    requires |dems| == |used| == |slots| && OnlyUsed(used, slots)
    ensures TotalSize(dems, slots) <= AllSizes(dems, used)
    ensures (forall i | 0 <= i < |slots| && used[i] :: slots[i].pixel != []) ==>
              TotalSize(dems, slots) == AllSizes(dems, used)
  {
    hide SizeOf;
    if dems != [] {
      AllLoaded(dems[1..], used[1..], slots[1..]);
    }
  }

  predicate OthersLoaded(used: seq<bool>, slots: seq<Slot>, i: nat)
    requires |used| == |slots|
  {
    forall j | 0 <= j < |slots| && j != i && used[j] :: slots[j].pixel != []
  }

  /** With model i not loaded, the others take at most the rest; all of it when they are loaded. */
  lemma AllButOne(dems: seq<Dem>, used: seq<bool>, slots: seq<Slot>, i: nat, s: Slot)
    requires i < |dems| == |used| == |slots| && slots[i].pixel == [] && s.pixel != [] && used[i]
    requires OnlyUsed(used, slots)
    ensures TotalSize(dems, slots) + SizeOf(dems[i]) <= AllSizes(dems, used)
    ensures OthersLoaded(used, slots, i) ==> TotalSize(dems, slots) + SizeOf(dems[i]) == AllSizes(dems, used)
  {
    hide SizeOf, TotalSize, AllSizes;
    TotalAfterChange(dems, slots, i, s);
    AllLoaded(dems, used, slots[i := s]);
  }

  /** The budget has room for all used models, and for any one of them twice more. */
  ghost predicate Ample(dems: seq<Dem>, used: seq<bool>, budget: nat)
    requires |dems| == |used|
  {
    forall i | 0 <= i < |dems| && used[i] :: AllSizes(dems, used) + 2 * SizeOf(dems[i]) <= budget
  }

  // ----- The runs that need most -----

  predicate IsLargest(dems: seq<Dem>, used: seq<bool>, i: nat)
    requires |dems| == |used|
  {
    i < |dems| && used[i] && forall j | 0 <= j < |dems| && used[j] :: SizeOf(dems[j]) <= SizeOf(dems[i])
  }

  lemma LargestIsUsed(dems: seq<Dem>, used: seq<bool>, i: nat)
    requires |dems| == |used| && IsLargest(dems, used, i)
    ensures i < |dems| && used[i]
  {
  }

  lemma LargestIsAmple(dems: seq<Dem>, used: seq<bool>, budget: nat, i: nat)
    requires |dems| == |used| && IsLargest(dems, used, i)
    ensures Ample(dems, used, budget) <==> AllSizes(dems, used) + 2 * SizeOf(dems[i]) <= budget
  {
    hide SizeOf, AllSizes;
  }

  /** The last load, of the largest model, against the budget b at the start. */
  lemma RaisedLast(b: nat, before: nat, after: nat, total: nat, left: nat, all: nat, size: nat)
    requires before >= b && (all + 2 * size <= b ==> before == b) && size > 0
    requires total + size <= all && (before == b ==> total + size == all || total + size > b)
    requires left == total + size || (total + size > before && left + size > before)
    requires after == before + if before < left + 2 * size then 2 * size else 0
    ensures after == b <==> all + 2 * size <= b
  {
  }

  /** The lookups end with the largest used model, i, not chosen before, and choose every other used
      model before it. */
  ghost predicate LargestLast(dems: seq<Dem>, queries: seq<Query>, i: nat)
    requires Sized(dems)
  {
    && IsLargest(dems, Used(dems), i) && queries != [] && AsksFor(dems, queries[|queries| - 1], i)
    && AskForOthers(dems, queries[..|queries| - 1], |dems|, i)
  }

  /** The lookups choose used models other than i, and all of them among the first n. */
  ghost predicate AskForOthers(dems: seq<Dem>, queries: seq<Query>, n: nat, i: nat)
    requires Sized(dems) && n <= |dems|
  {
    && (forall k | 0 <= k < |queries| :: !AsksFor(dems, queries[k], i))
    && forall j | 0 <= j < n && j != i && Used(dems)[j] :: exists k | 0 <= k < |queries| :: AsksFor(dems, queries[k], j)
  }

  /** One of the first k lookups chooses model j. */
  ghost predicate AskedBefore(dems: seq<Dem>, queries: seq<Query>, k: nat, j: nat)
    requires Sized(dems) && k <= |queries|
  {
    exists l | 0 <= l < k :: AsksFor(dems, queries[l], j)
  }

  lemma FitsLargest(dems: seq<Dem>, q: Query, i: nat, budget: nat)
    requires Sized(dems) && IsLargest(dems, Used(dems), i) && SizeOf(dems[i]) <= budget
    ensures Fits(dems, q, budget)
  {
    forall j: nat | j < |dems| && AsksFor(dems, q, j)
      ensures SizeOf(dems[j]) <= budget
    {
      AskedIsUsed(dems, q, j);
    }
    hide SizeOf, AsksFor;
  }

  predicate Different(asked: seq<nat>) {
    forall k, l | 0 <= k < l < |asked| :: asked[k] != asked[l]
  }

  /** Each lookup chooses another model, of the given size. */
  ghost predicate AskForEach(dems: seq<Dem>, queries: seq<Query>, asked: seq<nat>, size: nat)
    requires Sized(dems)
  {
    && |asked| == |queries| && Different(asked)
    && forall k | 0 <= k < |asked| ::
         asked[k] < |dems| && AsksFor(dems, queries[k], asked[k]) && SizeOf(dems[asked[k]]) == size
  }

  lemma AskForEachIs(dems: seq<Dem>, queries: seq<Query>, asked: seq<nat>, size: nat)
    requires Sized(dems) && AskForEach(dems, queries, asked, size)
    ensures |asked| == |queries| && Different(asked) && forall k | 0 <= k < |asked| :: asked[k] < |dems|
  {
  }

  lemma AskForOne(dems: seq<Dem>, queries: seq<Query>, asked: seq<nat>, size: nat, k: nat)
    requires Sized(dems) && AskForEach(dems, queries, asked, size) && k < |asked|
    ensures |asked| == |queries| && asked[k] < |dems| && AsksFor(dems, queries[k], asked[k])
    ensures SizeOf(dems[asked[k]]) == size
  {
  }

  lemma {:induction false} OthersAsked(dems: seq<Dem>, n: nat, i: nat) returns (queries: seq<Query>)
    requires Sized(dems) && n <= |dems|
    ensures AskForOthers(dems, queries, n, i)
  {
    hide AsksFor;
    if n == 0 {
      queries := [];
    } else {
      queries := OthersAsked(dems, n - 1, i);
      if n - 1 != i && Used(dems)[n - 1] {
        var before := queries;
        var q :| AsksFor(dems, q, n - 1);
        if AsksFor(dems, q, i) {
          AsksForOne(dems, q, n - 1, i);
        }
        queries := before + [q];
        assert queries[|before|] == q && forall k | 0 <= k < |before| :: queries[k] == before[k];
      }
    }
  }

  lemma {:induction false} LargestUsed(dems: seq<Dem>, used: seq<bool>, n: nat) returns (i: nat)
    requires n <= |dems| == |used| && exists j | 0 <= j < n :: used[j]
    ensures i < n && used[i] && forall j | 0 <= j < n && used[j] :: SizeOf(dems[j]) <= SizeOf(dems[i])
  {
    hide SizeOf;
    if exists j | 0 <= j < n - 1 :: used[j] {
      i := LargestUsed(dems, used, n - 1);
      if used[n - 1] && SizeOf(dems[n - 1]) > SizeOf(dems[i]) {
        i := n - 1;
      }
    } else {
      i := n - 1;
    }
  }

  /** There is such a run, unless no lookup ever finds a model. */
  lemma LargestLastExists(dems: seq<Dem>)
    requires Sized(dems) && exists j | 0 <= j < |dems| :: Used(dems)[j]
    ensures exists queries, i :: LargestLast(dems, queries, i)
  {
    hide AsksFor, SizeOf;
    var i := LargestUsed(dems, Used(dems), |dems|);
    var others := OthersAsked(dems, |dems|, i);
    var q :| AsksFor(dems, q, i);
    assert (others + [q])[..|others|] == others;
    assert LargestLast(dems, others + [q], i);
  }

  /** A model with the same box and the same size of pixels. */
  predicate Twins(d: Dem, e: Dem) {
    e == d.(xcount := e.xcount, ycount := e.ycount)
  }

  lemma TwinsListed(dems: seq<Dem>, r: int, c: int)
    requires |dems| == 3 && Twins(dems[0], dems[1]) && Twins(dems[0], dems[2])
    ensures CellList(dems, 3, r, c) == [] || CellList(dems, 3, r, c) == [0, 1, 2]
  {
    assert forall i | 0 <= i < 3 :: Covers(dems[i], r, c) == Covers(dems[0], r, c);
    hide Covers;
    assert Covering(dems, 0, r, c) == [];
    assert Covering(dems, 1, r, c) == if Covers(dems[0], r, c) then [0] else [];
    assert Covering(dems, 2, r, c) == if Covers(dems[0], r, c) then [0, 1] else [];
  }

  lemma {:induction false} AllOrNone(dems: seq<Dem>, list: seq<nat>, lon: real, lat: real, near: bool)
    requires forall k | 0 <= k < |list| :: list[k] < |dems| && Near(dems[list[k]], lon, lat, SLACK) == near
    ensures Matches(dems, list, lon, lat) == if near then list else []
  {
    if list == [] {
      NoMatches(dems, lon, lat);
    } else {
      var n := |list| - 1;
      AllOrNone(dems, list[..n], lon, lat, near);
      NextMatch(dems, list, lon, lat, n);
      assert list[..n + 1] == list && list == list[..n] + [list[n]];
      hide *;
    }
  }

  lemma TwinsFound(dems: seq<Dem>, lon: real, lat: real)
    requires |dems| == 3 && Twins(dems[0], dems[1]) && Twins(dems[0], dems[2])
    ensures Found(dems, lon, lat) == [] || Found(dems, lon, lat) == [0, 1, 2]
  {
    var r, c := CellRow(lat), CellColumn(lon);
    TwinsListed(dems, r, c);
    AllOrNone(dems, CellList(dems, |dems|, r, c), lon, lat, Near(dems[0], lon, lat, SLACK));
    hide CellList, Matches, CellRow, CellColumn;
  }

  /** Of three twins no lookup chooses the middle one. */
  lemma MiddleIsUnused(dems: seq<Dem>)
    requires |dems| == 3 && Sized(dems) && Twins(dems[0], dems[1]) && Twins(dems[0], dems[2])
    ensures !Used(dems)[1]
  {
    forall q: Query
      ensures !AsksFor(dems, q, 1)
    {
      TwinsFound(dems, q.lon, q.lat);
      hide Found;
    }
  }

  lemma SizePositive(d: Dem)
    requires d.ycount > 0
    ensures SizeOf(d) > 0
  {
  }

  function Copies(n: nat, size: nat): nat { n * size }

  lemma SomeLoaded(dems: seq<Dem>, slots: seq<Slot>)
    requires |dems| == |slots| && TotalSize(dems, slots) > 0
    ensures exists i | 0 <= i < |slots| :: slots[i].pixel != []
  {
    if forall i | 0 <= i < |slots| :: slots[i].pixel == [] {
      NothingLoaded(dems, slots);
    }
  }

  lemma NoCopies(size: nat)
    ensures Copies(0, size) == 0
  {
  }

  lemma OneMoreCopy(n: nat, size: nat)
    ensures Copies(n + 1, size) == Copies(n, size) + size
  {
  }

  function LoadedCount(slots: seq<Slot>): nat {
    if slots == [] then 0 else (if slots[0].pixel == [] then 0 else 1) + LoadedCount(slots[1..])
  }

  lemma {:induction false} CountAfterEviction(slots: seq<Slot>, i: nat)
    requires i < |slots| && slots[i].pixel != []
    ensures LoadedCount(slots[i := Slot(0.0, [])]) == LoadedCount(slots) - 1
  {
    if i == 0 {
      assert slots[0 := Slot(0.0, [])][1..] == slots[1..];
    } else {
      assert slots[i := Slot(0.0, [])][1..] == slots[1..][i - 1 := Slot(0.0, [])];
      CountAfterEviction(slots[1..], i - 1);
    }
  }

  lemma {:induction false} CountExtends(slots: seq<Slot>, s: Slot)
    ensures LoadedCount(slots + [s]) == LoadedCount(slots) + if s.pixel == [] then 0 else 1
  {
    if slots == [] {
      assert ([s])[1..] == [];
    } else {
      assert (slots + [s])[1..] == slots[1..] + [s];
      CountExtends(slots[1..], s);
    }
  }

  // ----- Eviction -----

  /** Oldest first: what has gone is no younger than what has stayed. */
  ghost predicate OldestGone(before: seq<Slot>, after: seq<Slot>) {
    && |before| == |after|
    && (forall i | 0 <= i < |after| :: after[i] == before[i] || after[i] == Slot(0.0, []))
    && forall i, j | 0 <= i < |after| && 0 <= j < |after| ::
         before[i].pixel != [] && after[i].pixel == [] && after[j].pixel != [] ==> before[i].utc <= after[j].utc
  }

  /** Model i is a loaded one, and no loaded one is older. */
  predicate IsOldest(slots: seq<Slot>, i: int) {
    0 <= i < |slots| && slots[i].pixel != [] && forall j | 0 <= j < |slots| && slots[j].pixel != [] ::
        slots[i].utc <= slots[j].utc
  }

  lemma NoneGone(slots: seq<Slot>)
    ensures OldestGone(slots, slots)
  {
  }

  lemma EvictionKeepsOrder(before: seq<Slot>, mid: seq<Slot>, i: int)
    requires OldestGone(before, mid) && IsOldest(mid, i)
    ensures OldestGone(before, mid[i := Slot(0.0, [])]) && |before| == |mid| && before[i].pixel != []
  {
  }

  lemma StillUnloaded(before: seq<Slot>, after: seq<Slot>, i: nat)
    requires OldestGone(before, after) && i < |before| && before[i] == Slot(0.0, [])
    ensures |after| == |before| && after[i] == before[i]
  {
  }

  function Monus(a: nat, b: nat): nat { if a >= b then a - b else 0 }

  // ----- Pixels -----

  /** An angle, or not a number. */
  datatype Angle = NaN | Rad(r: real)

  const NO_PIXEL := Pixel(0.0, (0.0, 0.0, 1.0))

  /** The points that are looked up: the check lets latitudes beyond the north pole through. */
  predicate OnMap(lon: Angle, lat: Angle) {
    lon.Rad? && lat.Rad? && InRange(lon.r, lat.r)
  }

  function PixelRow(d: Dem, lat: real): (r: int)
    requires d.psize > 0.0 && d.ycount > 0
    ensures 0 <= r < d.ycount
  {
    Min(d.ycount - 1, Max(0, Truncated((d.latul - lat) / d.psize - 0.5)))
  }

  function PixelColumn(d: Dem, lon: real): (c: int)
    requires d.psize > 0.0 && d.xcount > 0
    ensures 0 <= c < d.xcount
  {
    Min(d.xcount - 1, Max(0, Truncated((lon - d.lonul) / d.psize + 0.5)))
  }

  function Scaled(p: Pixel, vscale: real, htov: real): Pixel {
    Pixel(p.alt * vscale, (p.nmap.0, p.nmap.1, p.nmap.2 * htov))
  }

  /** The answer as a function of the file alone. */
  function FilePixel(d: Dem, file: Image, lon: real, lat: real, vscale: real, htov: real): Pixel
    requires d.psize > 0.0 && d.ycount > 0 && d.xcount > 0 && IsImage(d, file)
  {
    Scaled(file[PixelRow(d, lat)][PixelColumn(d, lon)], vscale, htov)
  }

  // ----- Filling the memory -----

  /** The first k models that are asked for have been loaded, one after the other, and no other. */
  ghost predicate Filled(slots: seq<Slot>, files: seq<Image>, asked: seq<nat>, k: nat, start: real) {
    && |slots| == |files| && k <= |asked| && (forall l | 0 <= l < |asked| :: asked[l] < |slots|)
    && (forall l | 0 <= l < k :: slots[asked[l]] == Slot(start + l as real, files[asked[l]]))
    && (forall l | k <= l < |asked| :: slots[asked[l]].pixel == [])
    && forall j | 0 <= j < |slots| && slots[j].pixel != [] :: slots[j].utc < start + k as real
  }

  lemma NoneFilled(slots: seq<Slot>, files: seq<Image>, asked: seq<nat>, start: real)
    requires |slots| == |files| && (forall l | 0 <= l < |asked| :: asked[l] < |slots|)
    requires forall j | 0 <= j < |slots| :: slots[j].pixel == []
    ensures Filled(slots, files, asked, 0, start)
  {
  }

  lemma NextFilled(slots: seq<Slot>, files: seq<Image>, asked: seq<nat>, k: nat, start: real, i: nat, now: real)
    requires Filled(slots, files, asked, k, start) && k < |asked| && Different(asked)
    requires i == asked[k] && now == start + k as real
    ensures |slots| == |files| && i < |slots| && slots[i].pixel == []
    ensures forall j | 0 <= j < |slots| && slots[j].pixel != [] :: slots[j].utc < now
    ensures Filled(slots[i := Slot(now, files[i])], files, asked, k + 1, start)
  {
  }

  /** After loading k models of one size into a memory with budget b. */
  predicate Grown(k: nat, size: nat, total: nat, budget: nat, b: nat) {
    && total + size <= budget && total == Copies(k, size)
    && if k == 0 then budget == b else budget >= Copies(k + 2, size) && (budget == b <==> Copies(k + 2, size) <= b)
  }

  lemma NoneGrown(size: nat, b: nat)
    requires size <= b
    ensures Grown(0, size, 0, b, b)
  {
  }

  lemma RoomToGrow(k: nat, size: nat, total: nat, budget: nat, b: nat)
    requires Grown(k, size, total, budget, b)
    ensures total + size <= budget
  {
  }

  lemma NextGrown(k: nat, size: nat, total: nat, budget: nat, b: nat, left: nat, grown: nat)
    requires Grown(k, size, total, budget, b) && left == total + size
    requires grown == budget + if budget < left + 2 * size then 2 * size else 0
    ensures Grown(k + 1, size, left, grown, b)
  {
    OneMoreCopy(k, size);
    OneMoreCopy(k + 1, size);
    OneMoreCopy(k + 2, size);
    hide Copies;
  }

  lemma HasGrown(k: nat, size: nat, total: nat, budget: nat, b: nat)
    requires Grown(k, size, total, budget, b)
    ensures total == Copies(k, size)
    ensures k > 0 ==> budget >= Copies(k + 2, size) && (budget == b <==> Copies(k + 2, size) <= b)
  {
  }

  // ----- The cache -----

  class Cache {
    const dems: seq<Dem>
    /** What the file of each model holds. */
    const files: seq<Image>
    const index: array2<seq<nat>>
    const vscale: real
    const htov: real
    var slots: seq<Slot>
    var totalloc: nat
    var maxalloc: nat

    ghost predicate Indexed()
      reads index
    {
      && index.Length0 == ROWS && index.Length1 == COLUMNS
      && forall r, c | 0 <= r < ROWS && 0 <= c < COLUMNS :: index[r, c] == CellList(dems, |dems|, r, c)
    }

    ghost predicate Filed() {
      && |dems| == |files|
      && forall i | 0 <= i < |dems| :: dems[i].xcount > 0 && dems[i].ycount > 0 && IsImage(dems[i], files[i])
    }

    ghost predicate Valid()
      reads this, index
    {
      && |dems| == |files| == |slots| && Sized(dems) && Filed() && Indexed()
      && (forall i | 0 <= i < |slots| :: slots[i] == Slot(0.0, []) || slots[i].pixel == files[i])
      && totalloc == TotalSize(dems, slots) && totalloc <= maxalloc
      && OnlyUsed(Used(dems), slots)
    }

    constructor (dems: seq<Dem>, files: seq<Image>, vscale: real, htov: real, maxalloc: nat)
      requires |dems| == |files| && Sized(dems)
      requires forall i | 0 <= i < |dems| :: dems[i].xcount > 0 && dems[i].ycount > 0 && IsImage(dems[i], files[i])
      ensures Valid() && this.dems == dems && this.files == files && this.maxalloc == maxalloc
      ensures fresh(index) && forall i | 0 <= i < |slots| :: slots[i].pixel == []
    {
      this.dems, this.files, this.vscale, this.htov, this.maxalloc := dems, files, vscale, htov, maxalloc;
      var built := BuildIndex(dems);
      index := built;
      slots := seq(|dems|, _ => Slot(0.0, []));
      totalloc := 0;
      new;
      NothingLoaded(dems, slots);
    }

    lemma Accounted()
      requires Valid()
      ensures |dems| == |files| == |slots| && totalloc == TotalSize(dems, slots) && totalloc <= maxalloc
    {
    }

    /** Count the loaded models and find the oldest, the last of several. */
    method LastOldest(now: real) returns (count: nat, indexl: int)
      requires forall i | 0 <= i < |slots| && slots[i].pixel != [] :: slots[i].utc <= now
      ensures count == LoadedCount(slots)
      ensures count > 0 ==>
                IsOldest(slots, indexl) && forall j | indexl < j < |slots| && slots[j].pixel != [] ::
                    slots[indexl].utc < slots[j].utc
    {
      count, indexl := 0, -1;
      var utcl := now;
      for i := 0 to |slots|
        invariant count == LoadedCount(slots[..i])
        invariant count == 0 ==> indexl == -1 && utcl == now && forall j | 0 <= j < i :: slots[j].pixel == []
        invariant count > 0 ==> && IsOldest(slots[..i], indexl) && utcl == slots[indexl].utc
                                && forall j | indexl < j < i && slots[j].pixel != [] :: utcl < slots[j].utc
      {
        assert slots[..i + 1] == slots[..i] + [slots[i]];
        CountExtends(slots[..i], slots[i]);
        if slots[i].pixel != [] {
          count := count + 1;
          if slots[i].utc <= utcl {
            indexl, utcl := i, slots[i].utc;
          }
        }
      }
      assert slots[..|slots|] == slots;
    }

    /** Find the oldest loaded model, the first of several. */
    method FirstOldest(now: real) returns (cidx: int)
      requires forall i | 0 <= i < |slots| && slots[i].pixel != [] :: slots[i].utc < now
      ensures (exists i | 0 <= i < |slots| :: slots[i].pixel != []) ==>
                IsOldest(slots, cidx) && forall j | 0 <= j < cidx && slots[j].pixel != [] ::
                    slots[cidx].utc < slots[j].utc
    {
      cidx := -1;
      var cutc := now;
      for i := 0 to |slots|
        invariant cidx == -1 ==> cutc == now && forall j | 0 <= j < i :: slots[j].pixel == []
        invariant cidx != -1 ==> && IsOldest(slots[..i], cidx) && cutc == slots[cidx].utc
                                 && forall j | 0 <= j < cidx && slots[j].pixel != [] :: cutc < slots[j].utc
      {
        if slots[i].pixel != [] && slots[i].utc < cutc {
          cidx, cutc := i, slots[i].utc;
        }
      }
    }

    /** Unload model i. */
    method Evict(i: nat)
      requires Valid() && i < |slots| && slots[i].pixel != []
      modifies this`slots, this`totalloc
      ensures Valid() && slots == old(slots)[i := Slot(0.0, [])] && totalloc == old(totalloc) - SizeOf(dems[i])
    {
      hide SizeOf, TotalSize, Used, Indexed, Filed, OnlyUsed;
      UsedAfterChange(Used(dems), slots, i, Slot(0.0, []));
      TotalAfterChange(dems, slots, i, Slot(0.0, []));
      var dalloc := SizeOf(dems[i]);
      slots := slots[i := Slot(0.0, [])];
      totalloc := Monus(totalloc, dalloc);
    }

    /** Unload model i, an oldest one, after others. */
    method EvictNext(ghost was: seq<Slot>, i: nat)
      requires Valid() && IsOldest(slots, i) && OldestGone(was, slots)
      modifies this`slots, this`totalloc
      ensures Valid() && OldestGone(was, slots) && |slots| == |was| && was[i].pixel != []
      ensures slots == old(slots)[i := Slot(0.0, [])] && totalloc == old(totalloc) - SizeOf(dems[i])
      ensures LoadedCount(slots) == old(LoadedCount(slots)) - 1
    {
      hide SizeOf, TotalSize, Used, Indexed, Filed, OldestGone;
      CountAfterEviction(slots, i);
      EvictionKeepsOrder(was, slots, i);
      Evict(i);
    }

    /** `map_dem_cache`: unload models, the oldest first, until at most num, and never more than
        ten, are left. With a negative number the original, in the end, looks before the start of
        its list: then the result is not defined. */
    method Shrink(num: int, now: real) returns (defined: bool)
      requires Valid() && forall i | 0 <= i < |slots| && slots[i].pixel != [] :: slots[i].utc <= now
      modifies this
      ensures Valid() && maxalloc == old(maxalloc) && (defined <==> num >= 0)
      ensures OldestGone(old(slots), slots)
      ensures LoadedCount(slots) == Min(old(LoadedCount(slots)), Max(0, Min(num, 10)))
    {
      hide SizeOf, TotalSize, Used, Indexed, Filed, OldestGone, LoadedCount;
      var limit := Min(num, 10);
      ghost var was := slots;
      NoneGone(was);
      var count, indexl := LastOldest(now);
      while count > limit
        invariant Valid() && maxalloc == old(maxalloc) && OldestGone(was, slots)
        invariant count == LoadedCount(slots) && Min(LoadedCount(was), Max(0, limit)) <= count <= LoadedCount(was)
        invariant count > 0 ==> IsOldest(slots, indexl)
        invariant forall i | 0 <= i < |slots| && slots[i].pixel != [] :: slots[i].utc <= now
      {
        if count == 0 {
          return false;
        }
        EvictNext(was, indexl);
        count, indexl := LastOldest(now);
      }
      defined := true;
    }

    /** Unload the oldest of some loaded models. */
    method EvictOldest(ghost was: seq<Slot>, now: real) returns (ghost gone: nat)
      requires Valid() && OldestGone(was, slots) && exists i | 0 <= i < |slots| :: slots[i].pixel != []
      requires forall i | 0 <= i < |slots| && slots[i].pixel != [] :: slots[i].utc < now
      modifies this`slots, this`totalloc
      ensures Valid() && OldestGone(was, slots) && LoadedCount(slots) < old(LoadedCount(slots))
      ensures gone < |slots| == |was| && was[gone].pixel != [] && slots == old(slots)[gone := Slot(0.0, [])]
      ensures totalloc + SizeOf(dems[gone]) == old(totalloc)
    {
      hide SizeOf, TotalSize, Used, Indexed, Filed, OldestGone, LoadedCount;
      var cidx := FirstOldest(now);
      EvictNext(was, cidx);
      gone := cidx;
    }

    /** Unload models, the oldest first, until the budget has room, and no more than needed. */
    method MakeRoom(dsize: nat, now: real)
      requires Valid() && dsize <= maxalloc && forall i | 0 <= i < |slots| && slots[i].pixel != [] :: slots[i].utc < now
      modifies this`slots, this`totalloc
      ensures Valid() && totalloc + dsize <= maxalloc && OldestGone(old(slots), slots)
      ensures old(totalloc) + dsize <= maxalloc ==> slots == old(slots) && totalloc == old(totalloc)
      ensures slots != old(slots) ==>
                exists i | 0 <= i < |slots| && old(slots)[i].pixel != [] && slots[i].pixel == [] ::
                  totalloc + SizeOf(dems[i]) + dsize > maxalloc
    {
      ghost var was, gone := slots, -1;
      NoneGone(was);
      hide *;
      Accounted();
      while totalloc + dsize > maxalloc
        invariant Valid() && OldestGone(was, slots)
        invariant |dems| == |slots| == |was| && totalloc == TotalSize(dems, slots)
        invariant forall i | 0 <= i < |slots| && slots[i].pixel != [] :: slots[i].utc < now
        invariant gone < 0 ==> slots == was && totalloc == old(totalloc)
        invariant gone >= 0 ==>
                    && old(totalloc) + dsize > maxalloc && gone < |slots| && was[gone].pixel != []
                    && slots[gone].pixel == [] && totalloc + SizeOf(dems[gone]) + dsize > maxalloc
        decreases LoadedCount(slots)
      {
        SomeLoaded(dems, slots);
        gone := EvictOldest(was, now);
        Accounted();
      }
    }

    /** Model i has been loaded, at the cost of older ones when the budget had no room. The budget
        has grown by twice its size when there was not room for that much more. */
    ghost predicate Loaded(i: nat, before: seq<Slot>, total: nat, budget: nat, loadTime: real)
      requires i < |dems|
      reads this
    {
      && |slots| == |before| == |dems| == |files|
      && slots[i] == Slot(loadTime, files[i]) && OldestGone(before, slots[i := before[i]])
      && maxalloc == budget + (if budget < totalloc + 2 * SizeOf(dems[i]) then 2 * SizeOf(dems[i]) else 0)
      && if slots == before[i := slots[i]] then totalloc == total + SizeOf(dems[i])
         else
           && total + SizeOf(dems[i]) > budget
           && exists e | 0 <= e < |dems| && before[e].pixel != [] :: totalloc + SizeOf(dems[e]) > budget
    }

    /** Read the file of model i and adapt the budget. */
    method Read(i: nat, loadTime: real)
      requires Valid() && i < |dems| && Used(dems)[i] && slots[i].pixel == [] && totalloc + SizeOf(dems[i]) <= maxalloc
      modifies this
      ensures Valid() && slots == old(slots)[i := Slot(loadTime, files[i])]
      ensures totalloc == old(totalloc) + SizeOf(dems[i])
      ensures maxalloc == old(maxalloc) +
                if old(maxalloc) < totalloc + 2 * SizeOf(dems[i]) then 2 * SizeOf(dems[i]) else 0
    {
      hide SizeOf, TotalSize, Used, Indexed, OnlyUsed;
      var dsize := SizeOf(dems[i]);
      UsedAfterChange(Used(dems), slots, i, Slot(loadTime, files[i]));
      TotalAfterChange(dems, slots, i, Slot(loadTime, files[i]));
      slots := slots[i := Slot(loadTime, files[i])];
      totalloc := totalloc + dsize;
      if maxalloc < totalloc + 2 * dsize {
        maxalloc := maxalloc + 2 * dsize;
      }
    }

    lemma LoadedIs(i: nat, was: seq<Slot>, mid: seq<Slot>, total: nat, left: nat, budget: nat, loadTime: real)
      requires |slots| == |was| == |mid| == |dems| == |files| && i < |dems| && OldestGone(was, mid) && mid[i] == was[i]
      requires slots == mid[i := Slot(loadTime, files[i])] && totalloc == left + SizeOf(dems[i])
      requires maxalloc == budget + if budget < totalloc + 2 * SizeOf(dems[i]) then 2 * SizeOf(dems[i]) else 0
      requires total + SizeOf(dems[i]) <= budget ==> mid == was && left == total
      requires mid == was ==> left == total
      requires mid != was ==> exists e | 0 <= e < |dems| && was[e].pixel != [] && mid[e].pixel == [] ::
                 left + SizeOf(dems[e]) + SizeOf(dems[i]) > budget
      ensures Loaded(i, was, total, budget, loadTime)
    {
      hide SizeOf, OldestGone;
      assert slots[i := was[i]] == mid;
    }

    /** Make room for model i, and load it. */
    method Load(i: nat, now: real, loadTime: real)
      requires Valid() && i < |dems| && Used(dems)[i] && slots[i].pixel == [] && SizeOf(dems[i]) <= maxalloc
      requires forall j | 0 <= j < |slots| && slots[j].pixel != [] :: slots[j].utc < now
      modifies this
      ensures Valid() && maxalloc >= totalloc + 2 * SizeOf(dems[i])
      ensures Loaded(i, old(slots), old(totalloc), old(maxalloc), loadTime)
    {
      hide SizeOf, TotalSize, OldestGone, Used, Indexed;
      ghost var was := slots;
      MakeRoom(SizeOf(dems[i]), now);
      StillUnloaded(was, slots, i);
      ghost var mid, left, budget := slots, totalloc, maxalloc;
      ghost var total := old(totalloc);
      Read(i, loadTime);
      LoadedIs(i, was, mid, total, left, budget, loadTime);
    }

    /** Model dci was loaded, or has been. */
    ghost predicate Held(dci: nat, before: seq<Slot>, total: nat, budget: nat, loadTime: real)
      requires dci < |dems|
      reads this
    {
      && |before| == |dems|
      && if before[dci].pixel != [] then slots == before && totalloc == total && maxalloc == budget
         else Loaded(dci, before, total, budget, loadTime)
    }

    /** Model dci, loaded if it is not. */
    method Fetch(dci: nat, now: real, loadTime: real)
      requires Valid() && dci < |dems| && Used(dems)[dci] && SizeOf(dems[dci]) <= maxalloc
      requires forall i | 0 <= i < |slots| && slots[i].pixel != [] :: slots[i].utc < now
      modifies this
      ensures Valid() && slots[dci].pixel == files[dci] && maxalloc >= old(maxalloc)
      ensures Held(dci, old(slots), old(totalloc), old(maxalloc), loadTime)
      ensures Ample(dems, Used(dems), old(maxalloc)) ==>
                maxalloc == old(maxalloc) && slots == old(slots)[dci := slots[dci]]
    {
      hide SizeOf, TotalSize, AllSizes, OldestGone, Used;
      if slots[dci].pixel == [] {
        AllButOne(dems, Used(dems), slots, dci, Slot(loadTime, files[dci]));
        Load(dci, now, loadTime);
      }
    }

    /** The model of the point's cell that the search chooses. */
    method Choose(lon: real, lat: real, res: real) returns (dci: int)
      requires Valid() && InRange(lon, lat)
      ensures if Found(dems, lon, lat) == [] then dci == -1
              else 0 <= dci < |dems| && AsksFor(dems, Query(lon, lat, res), dci) && Used(dems)[dci]
    {
      hide SizeOf, TotalSize, Used, Filed;
      var list := index[CellRow(lat), CellColumn(lon)];
      dci := Search(dems, list, lon, lat, res);
      if dci >= 0 {
        AskedIsUsed(dems, Query(lon, lat, res), dci);
      }
    }

    method PixelOf(i: nat, lon: real, lat: real) returns (pixel: Pixel)
      requires |dems| == |slots| && Sized(dems) && Filed() && i < |dems| && slots[i].pixel == files[i]
      ensures pixel == FilePixel(dems[i], files[i], lon, lat, vscale, htov)
    {
      var image := slots[i].pixel;
      var drow, dcol := PixelRow(dems[i], lat), PixelColumn(dems[i], lon);
      pixel := Scaled(image[drow][dcol], vscale, htov);
    }

    /** The pixel of a point on the map. */
    method PixelInRange(lon: real, lat: real, res: real, now: real, loadTime: real)
      returns (pixel: Pixel, defined: bool, ghost dci: int)
      requires Valid() && forall i | 0 <= i < |slots| && slots[i].pixel != [] :: slots[i].utc < now
      requires InRange(lon, lat) && Fits(dems, Query(lon, lat, res), maxalloc)
      modifies this
      ensures Valid() && maxalloc >= old(maxalloc) && (defined <==> Found(dems, lon, lat) != [])
      ensures !defined ==> slots == old(slots) && totalloc == old(totalloc) && maxalloc == old(maxalloc)
      ensures defined ==>
                && 0 <= dci < |dems| && AsksFor(dems, Query(lon, lat, res), dci)
                && pixel == FilePixel(dems[dci], files[dci], lon, lat, vscale, htov)
                && slots[dci].pixel != [] && Held(dci, old(slots), old(totalloc), old(maxalloc), loadTime)
      ensures Ample(dems, Used(dems), old(maxalloc)) ==>
                maxalloc == old(maxalloc) && (defined ==> slots == old(slots)[dci := slots[dci]])
    {
      hide SizeOf, TotalSize, AllSizes, OldestGone, Held, Loaded, Used, Ample, FilePixel, Fits, Found, AsksFor,
           Indexed, InRange;
      dci := -1;
      var i := Choose(lon, lat, res);
      if i < 0 {
        return NO_PIXEL, false, -1;
      }
      dci := i;
      FitsOne(dems, Query(lon, lat, res), maxalloc, i);
      Fetch(i, now, loadTime);
      defined := true;
      pixel := PixelOf(i, lon, lat);
    }

    /** `map_dem_pixel`: the pixel of the chosen model's file, scaled, whatever is loaded. What is
        loaded never exceeds the budget; when it is ample it stays, and nothing is evicted. Where no
        model matches, the original looks before the start of its list: then the result is not
        defined. */
    method PixelAt(lon: Angle, lat: Angle, res: real, now: real, loadTime: real)
      returns (pixel: Pixel, defined: bool, ghost dci: int)
      requires Valid() && forall i | 0 <= i < |slots| && slots[i].pixel != [] :: slots[i].utc < now
      requires OnMap(lon, lat) ==> Fits(dems, Query(lon.r, lat.r, res), maxalloc)
      modifies this
      ensures Valid() && maxalloc >= old(maxalloc)
      ensures !OnMap(lon, lat) ==> pixel == NO_PIXEL
      ensures defined <==> (OnMap(lon, lat) ==> Found(dems, lon.r, lat.r) != [])
      ensures !OnMap(lon, lat) || !defined ==>
                slots == old(slots) && totalloc == old(totalloc) && maxalloc == old(maxalloc)
      ensures OnMap(lon, lat) && defined ==>
                && 0 <= dci < |dems| && AsksFor(dems, Query(lon.r, lat.r, res), dci)
                && pixel == FilePixel(dems[dci], files[dci], lon.r, lat.r, vscale, htov)
                && slots[dci].pixel != [] && Held(dci, old(slots), old(totalloc), old(maxalloc), loadTime)
      ensures Ample(dems, Used(dems), old(maxalloc)) ==>
                maxalloc == old(maxalloc) && (OnMap(lon, lat) && defined ==> slots == old(slots)[dci := slots[dci]])
    {
      pixel, defined, dci := NO_PIXEL, true, -1;
      if lon == NaN || lat == NaN {
        return;
      }
      if lat.r < -PI / 2.0 || lat.r > PI || lon.r < -PI || lon.r > PI {
        return;
      }
      hide *;
      pixel, defined, dci := PixelInRange(lon.r, lat.r, res, now, loadTime);
    }

    /** One lookup, whose pixel is not used. */
    method Ask(q: Query, now: real) returns (ghost dci: int)
      requires Valid() && Fits(dems, q, maxalloc)
      requires forall i | 0 <= i < |slots| && slots[i].pixel != [] :: slots[i].utc < now
      modifies this
      ensures Valid() && maxalloc >= old(maxalloc)
      ensures Ample(dems, Used(dems), old(maxalloc)) ==> maxalloc == old(maxalloc)
      ensures forall i | 0 <= i < |slots| && slots[i].pixel != [] :: slots[i].utc < now + 1.0
      ensures forall i: nat :: AsksFor(dems, q, i) <==> i == dci
      ensures dci >= 0 ==> dci < |dems| && Held(dci, old(slots), old(totalloc), old(maxalloc), now)
      ensures dci < 0 ==> slots == old(slots) && totalloc == old(totalloc) && maxalloc == old(maxalloc)
    {
      hide SizeOf, TotalSize, AllSizes, Ample, Found, Fits, FilePixel;
      var lon, lat := Rad(q.lon), Rad(q.lat);
      var pixel, defined;
      pixel, defined, dci := PixelAt(lon, lat, q.res, now, now);
      if OnMap(lon, lat) && defined {
        OneAsked(dems, q, dci);
      } else {
        dci := -1;
        NoneAsked(dems, q);
      }
    }

    /** Any run of lookups, one after the other: an ample budget stays. */
    method Lookups(queries: seq<Query>, start: real)
      requires Valid() && forall i | 0 <= i < |slots| && slots[i].pixel != [] :: slots[i].utc < start
      requires forall k | 0 <= k < |queries| :: Fits(dems, queries[k], maxalloc)
      modifies this
      ensures Valid() && maxalloc >= old(maxalloc)
      ensures Ample(dems, Used(dems), old(maxalloc)) ==> maxalloc == old(maxalloc)
      ensures forall i | 0 <= i < |slots| && slots[i].pixel != [] :: slots[i].utc < start + |queries| as real
    {
      hide SizeOf, TotalSize, AllSizes, OldestGone, Used, AsksFor, Ample, Found, Fits, Held;
      ghost var budget := maxalloc;
      for k := 0 to |queries|
        invariant Valid() && maxalloc >= budget && (Ample(dems, Used(dems), budget) ==> maxalloc == budget)
        invariant forall i | 0 <= i < |slots| && slots[i].pixel != [] :: slots[i].utc < start + k as real
      {
        FitsMore(dems, queries[k], budget, maxalloc);
        ghost var dci := Ask(queries[k], start + k as real);
      }
    }


    /** What a load leaves of the models loaded before, unless it had to make room. */
    lemma AskedNow(dci: nat, was: seq<Slot>, total: nat, allowed: nat, now: real, i: nat)
      requires Valid() && dci < |dems| && Loaded(dci, was, total, allowed, now) && was[dci].pixel == []
      requires IsLargest(dems, Used(dems), i) && i != dci && was[i].pixel == [] && OnlyUsed(Used(dems), was)
      ensures slots[i].pixel == [] && slots[dci].pixel != []
      ensures (slots == was[dci := slots[dci]] && totalloc >= total) || totalloc + SizeOf(dems[i]) > allowed
    {
      hide SizeOf, TotalSize, Used;
    }

    method LookAtOthers(queries: seq<Query>, start: real, ghost i: nat)
      requires Valid() && IsLargest(dems, Used(dems), i) && SizeOf(dems[i]) <= maxalloc
      requires AskForOthers(dems, queries, |dems|, i) && forall j | 0 <= j < |dems| :: slots[j].pixel == []
      modifies this
      ensures Valid() && maxalloc >= old(maxalloc) && slots[i].pixel == []
      ensures Ample(dems, Used(dems), old(maxalloc)) ==> maxalloc == old(maxalloc)
      ensures forall l | 0 <= l < |dems| && slots[l].pixel != [] :: slots[l].utc < start + |queries| as real
      ensures maxalloc == old(maxalloc) ==>
                OthersLoaded(Used(dems), slots, i) || totalloc + SizeOf(dems[i]) > old(maxalloc)
    {
      hide SizeOf, TotalSize, AllSizes, Ample, OldestGone, Used, AsksFor, Loaded;
      ghost var budget := maxalloc;
      for k := 0 to |queries|
        invariant Valid() && maxalloc >= budget && slots[i].pixel == []
        invariant Ample(dems, Used(dems), budget) ==> maxalloc == budget
        invariant forall l | 0 <= l < |dems| && slots[l].pixel != [] :: slots[l].utc < start + k as real
        invariant maxalloc == budget ==>
                    (forall l | 0 <= l < |dems| && AskedBefore(dems, queries, k, l) :: slots[l].pixel != [])
                    || totalloc + SizeOf(dems[i]) > budget
      {
        FitsLargest(dems, queries[k], i, maxalloc);
        ghost var was, total, allowed := slots, totalloc, maxalloc;
        ghost var dci := Ask(queries[k], start + k as real);
        if dci >= 0 && was[dci].pixel == [] {
          AskedNow(dci, was, total, allowed, start + k as real, i);
        }
      }
    }

    lemma LoadedLast(was: seq<Slot>, total: nat, before: nat, now: real, i: nat)
      requires Valid() && IsLargest(dems, Used(dems), i) && Loaded(i, was, total, before, now)
      requires OnlyUsed(Used(dems), was)
      ensures totalloc == total + SizeOf(dems[i])
           || (total + SizeOf(dems[i]) > before && totalloc + SizeOf(dems[i]) > before)
      ensures maxalloc == before + if before < totalloc + 2 * SizeOf(dems[i]) then 2 * SizeOf(dems[i]) else 0
    {
      hide SizeOf, TotalSize, Used;
    }

    /** The lookup of the largest used model after the others, against the budget at the start. */
    method LookLast(q: Query, now: real, ghost i: nat, ghost budget: nat)
      requires Valid() && IsLargest(dems, Used(dems), i) && AsksFor(dems, q, i) && SizeOf(dems[i]) <= maxalloc
      requires slots[i].pixel == [] && forall l | 0 <= l < |dems| && slots[l].pixel != [] :: slots[l].utc < now
      requires maxalloc >= budget && (Ample(dems, Used(dems), budget) ==> maxalloc == budget)
      requires maxalloc == budget ==> OthersLoaded(Used(dems), slots, i) || totalloc + SizeOf(dems[i]) > budget
      modifies this
      ensures Valid() && (maxalloc == budget <==> Ample(dems, Used(dems), budget))
    {
      SizePositive(dems[i]);
      LargestIsAmple(dems, Used(dems), budget, i);
      AllButOne(dems, Used(dems), slots, i, Slot(now, [[]]));
      LargestIsUsed(dems, Used(dems), i);
      assert Sized(dems) && OnlyUsed(Used(dems), slots);
      Accounted();
      hide SizeOf, TotalSize, AllSizes, Ample, OldestGone, AsksFor, Loaded, Indexed, Filed, Fits, IsLargest, Used,
           Valid, OthersLoaded;
      FitsLargest(dems, q, i, maxalloc);
      ghost var before, total, was := maxalloc, totalloc, slots;
      ghost var dci := Ask(q, now);
      LoadedLast(was, total, before, now, i);
      RaisedLast(budget, before, maxalloc, total, totalloc, AllSizes(dems, Used(dems)), SizeOf(dems[i]));
    }

    /** The lookups that need most raise every budget that is not ample. */
    method LookLargestLast(queries: seq<Query>, start: real, ghost i: nat)
      requires Valid() && LargestLast(dems, queries, i) && SizeOf(dems[i]) <= maxalloc
      requires forall j | 0 <= j < |dems| :: slots[j].pixel == []
      modifies this
      ensures Valid() && (maxalloc == old(maxalloc) <==> Ample(dems, Used(dems), old(maxalloc)))
    {
      hide SizeOf, Ample, Used, AsksFor, Indexed, Filed, IsLargest, AskForOthers, TotalSize, OthersLoaded;
      LargestIsUsed(dems, Used(dems), i);
      var n := |queries| - 1;
      ghost var budget := maxalloc;
      LookAtOthers(queries[..n], start, i);
      LookLast(queries[n], start + n as real, i, budget);
    }

    lemma LoadedWithRoom(i: nat, was: seq<Slot>, total: nat, allowed: nat, now: real)
      requires i < |dems| && Loaded(i, was, total, allowed, now) && total + SizeOf(dems[i]) <= allowed
      ensures |slots| == |was| == |files| && slots == was[i := Slot(now, files[i])]
      ensures totalloc == total + SizeOf(dems[i])
      ensures maxalloc == allowed + if allowed < totalloc + 2 * SizeOf(dems[i]) then 2 * SizeOf(dems[i]) else 0
    {
      hide SizeOf, OldestGone;
    }

    /** A lookup of a model that is not loaded, when there is room for it. */
    method LookAtNew(q: Query, ghost i: nat, now: real)
      requires Valid() && i < |dems| && AsksFor(dems, q, i) && slots[i].pixel == []
      requires totalloc + SizeOf(dems[i]) <= maxalloc
      requires forall l | 0 <= l < |slots| && slots[l].pixel != [] :: slots[l].utc < now
      modifies this
      ensures Valid() && slots == old(slots)[i := Slot(now, files[i])] && totalloc == old(totalloc) + SizeOf(dems[i])
      ensures maxalloc == old(maxalloc) +
                if old(maxalloc) < totalloc + 2 * SizeOf(dems[i]) then 2 * SizeOf(dems[i]) else 0
    {
      hide SizeOf, TotalSize, AllSizes, OldestGone, Ample, Used, AsksFor, Indexed, Filed, Fits, Loaded;
      FitsAsked(dems, q, i, maxalloc);
      ghost var was, total, allowed := slots, totalloc, maxalloc;
      ghost var dci := Ask(q, now);
      LoadedWithRoom(i, was, total, allowed, now);
    }

    /** The k-th of these lookups. */
    method LookAtNext(queries: seq<Query>, ghost asked: seq<nat>, k: nat, size: nat, start: real, ghost budget: nat)
      requires Valid() && AskForEach(dems, queries, asked, size) && k < |queries|
      requires Grown(k, size, totalloc, maxalloc, budget) && Filled(slots, files, asked, k, start)
      modifies this
      ensures Valid() && Grown(k + 1, size, totalloc, maxalloc, budget) && Filled(slots, files, asked, k + 1, start)
    {
      assert Sized(dems);
      hide *;
      ghost var total, allowed := totalloc, maxalloc;
      AskForEachIs(dems, queries, asked, size);
      AskForOne(dems, queries, asked, size, k);
      RoomToGrow(k, size, total, allowed, budget);
      ghost var i := asked[k];
      var now := start + k as real;
      NextFilled(slots, files, asked, k, start, i, now);
      LookAtNew(queries[k], i, now);
      NextGrown(k, size, total, allowed, budget, totalloc, maxalloc);
    }

    /** The budget does not limit the memory: lookups that choose models of one size, one after the
        other, evict nothing, as the budget follows the loaded models. It stays only when it has
        room for two models more than there are. */
    method LookAtEach(queries: seq<Query>, ghost asked: seq<nat>, size: nat, start: real)
      requires Valid() && size <= maxalloc && AskForEach(dems, queries, asked, size)
      requires forall j | 0 <= j < |dems| :: slots[j].pixel == []
      modifies this
      ensures Valid() && Filled(slots, files, asked, |queries|, start)
      ensures totalloc == Copies(|queries|, size) && (queries != [] ==> maxalloc >= Copies(|queries| + 2, size))
      ensures queries != [] ==> (maxalloc == old(maxalloc) <==> Copies(|queries| + 2, size) <= old(maxalloc))
    {
      NothingLoaded(dems, slots);
      ghost var budget := maxalloc;
      hide SizeOf, TotalSize, AllSizes, OldestGone, Copies, Ample, Used, AsksFor, Indexed, Filed, Fits, Loaded,
           Filled, Grown, AskForEach, Different;
      AskForEachIs(dems, queries, asked, size);
      NoneGrown(size, budget);
      NoneFilled(slots, files, asked, start);
      for k := 0 to |queries|
        invariant Valid() && Grown(k, size, totalloc, maxalloc, budget)
        invariant Filled(slots, files, asked, k, start)
      {
        LookAtNext(queries, asked, k, size, start, budget);
      }
      HasGrown(|queries|, size, totalloc, maxalloc, budget);
    }
  }
}
