/** Choosing the elevation model for a point: the cell index of `map_dem_open` and the search of
    `map_dem_pixel` in libraries/support/demlib.cpp. */
module DemIndex {
  import opened Numbers

  const PI: real := 3.1415926535897932384626433832795028841971693993751

  const MAX_DEMINDEX := 100

  const ROWS := 200

  const COLUMNS := 400

  const SLACK: real := 0.0000000000001

  /** A model's box, its pixel size and its numbers of columns and rows. */
  datatype Dem = Dem(lonul: real, latul: real, lonlr: real, latlr: real, psize: real, xcount: nat, ycount: nat)

  // ----- Cells -----

  function RowOf(lat: real): int { Truncated(200.0 * (PI / 2.0 + lat) / PI) }

  function ColumnOf(lon: real): int { Truncated(200.0 * (PI + lon) / PI) }

  /** The cell a point is looked up in. */
  function CellRow(lat: real): (r: int)
    ensures 0 <= r < ROWS
  {
    Min(ROWS - 1, Max(0, Truncated(200.0 * (lat + PI / 2.0) / PI)))
  }

  function CellColumn(lon: real): (c: int)
    ensures 0 <= c < COLUMNS
  {
    Min(COLUMNS - 1, Max(0, Truncated(400.0 * (lon + PI) / (2.0 * PI))))
  }

  /** The cells a model is entered in. */
  predicate Covers(d: Dem, r: int, c: int) {
    && Max(0, RowOf(d.latlr)) <= r <= Min(ROWS - 1, RowOf(d.latul))
    && Max(0, ColumnOf(d.lonul)) <= c <= Min(COLUMNS - 1, ColumnOf(d.lonlr))
  }

  /** The models among the first n that cover a cell, in order. */
  function Covering(dems: seq<Dem>, n: nat, r: int, c: int): (list: seq<nat>)
    requires n <= |dems|
    ensures forall k | 0 <= k < |list| :: list[k] < n
  {
    if n == 0 then []
    else if Covers(dems[n - 1], r, c) then Covering(dems, n - 1, r, c) + [n - 1]
    else Covering(dems, n - 1, r, c)
  }

  function Capped(list: seq<nat>): seq<nat> {
    if |list| <= MAX_DEMINDEX then list else list[..MAX_DEMINDEX]
  }

  /** What a cell holds of the first n models. */
  function CellList(dems: seq<Dem>, n: nat, r: int, c: int): (list: seq<nat>)
    requires n <= |dems|
    ensures forall k | 0 <= k < |list| :: list[k] < n
  {
    Capped(Covering(dems, n, r, c))
  }

  lemma CellListGrows(dems: seq<Dem>, n: nat, r: int, c: int)
    requires 0 < n <= |dems|
    ensures CellList(dems, n, r, c)
         == if Covers(dems[n - 1], r, c) && |CellList(dems, n - 1, r, c)| < MAX_DEMINDEX
            then CellList(dems, n - 1, r, c) + [n - 1] else CellList(dems, n - 1, r, c)
  {
    var list := Covering(dems, n - 1, r, c);
    if |list| >= MAX_DEMINDEX {
      assert (list + [n - 1])[..MAX_DEMINDEX] == list[..MAX_DEMINDEX];
    }
  }

  /** Enter model i in a cell that does not hold it yet and has room. */
  method Enter(list: seq<nat>, i: nat) returns (longer: seq<nat>)
    requires forall k | 0 <= k < |list| :: list[k] < i
    ensures longer == if |list| < MAX_DEMINDEX then list + [i] else list
  {
    var j := 0;
    while j < |list| && list[j] != i
      invariant 0 <= j <= |list|
    {
      j := j + 1;
    }
    longer := if j == |list| && |list| < MAX_DEMINDEX then list + [i] else list;
  }

  /** The index: every cell holds the first hundred models that cover it. */
  method BuildIndex(dems: seq<Dem>) returns (index: array2<seq<nat>>)
    ensures fresh(index) && index.Length0 == ROWS && index.Length1 == COLUMNS
    ensures forall r, c | 0 <= r < ROWS && 0 <= c < COLUMNS :: index[r, c] == CellList(dems, |dems|, r, c)
  {
    hide Covers, CellList, RowOf, ColumnOf;
    index := new seq<nat>[ROWS, COLUMNS]((_, _) => []);
    forall r, c | 0 <= r < ROWS && 0 <= c < COLUMNS
      ensures index[r, c] == CellList(dems, 0, r, c)
    {
      NothingListed(dems, r, c);
    }
    for i := 0 to |dems|
      invariant forall r, c | 0 <= r < ROWS && 0 <= c < COLUMNS :: index[r, c] == CellList(dems, i, r, c)
    {
      EnterDem(dems, i, index);
    }
  }

  lemma NothingListed(dems: seq<Dem>, r: int, c: int)
    ensures CellList(dems, 0, r, c) == []
  {
  }

  /** Enter model i in the cells of its rows and columns. */
  method EnterDem(dems: seq<Dem>, i: nat, index: array2<seq<nat>>)
    requires i < |dems| && index.Length0 == ROWS && index.Length1 == COLUMNS
    requires forall r, c | 0 <= r < ROWS && 0 <= c < COLUMNS :: index[r, c] == CellList(dems, i, r, c)
    modifies index
    ensures forall r, c | 0 <= r < ROWS && 0 <= c < COLUMNS :: index[r, c] == CellList(dems, i + 1, r, c)
  {
    var irmin := Max(0, RowOf(dems[i].latlr));
    var irmax := Min(ROWS - 1, RowOf(dems[i].latul));
    var icmin := Max(0, ColumnOf(dems[i].lonul));
    var icmax := Min(COLUMNS - 1, ColumnOf(dems[i].lonlr));
    forall r, c | 0 <= r < ROWS && 0 <= c < COLUMNS
      ensures CellList(dems, i + 1, r, c)
           == if irmin <= r <= irmax && icmin <= c <= icmax && |CellList(dems, i, r, c)| < MAX_DEMINDEX
              then CellList(dems, i, r, c) + [i] else CellList(dems, i, r, c)
    {
      CellListGrows(dems, i + 1, r, c);
    }
    hide Covers, CellList, RowOf, ColumnOf, Min, Max;
    var ir := irmin;
    while ir <= irmax
      invariant irmin <= ir
      invariant forall r, c | 0 <= r < ROWS && 0 <= c < COLUMNS ::
                  index[r, c] == if r < ir then CellList(dems, i + 1, r, c) else CellList(dems, i, r, c)
    {
      var ic := icmin;
      while ic <= icmax
        invariant icmin <= ic
        invariant forall r, c | 0 <= r < ROWS && 0 <= c < COLUMNS ::
                    index[r, c] == if r < ir || (r == ir && c < ic) then CellList(dems, i + 1, r, c)
                                   else CellList(dems, i, r, c)
      {
        var longer := Enter(index[ir, ic], i);
        index[ir, ic] := longer;
        ic := ic + 1;
      }
      ir := ir + 1;
    }
  }

  // ----- The search -----

  /** The point is in the model's box, give or take the slack. */
  predicate Near(d: Dem, lon: real, lat: real, slack: real) {
    d.lonul - slack <= lon <= d.lonlr + slack && d.latlr - slack <= lat <= d.latul + slack
  }

  /** The model is at least twice as fine as asked. */
  predicate Fine(d: Dem, res: real)
    requires d.psize > 0.0
  {
    res / d.psize >= 2.0
  }

  /** The models of a list whose box is near the point. */
  function Matches(dems: seq<Dem>, list: seq<nat>, lon: real, lat: real): (m: seq<nat>)
    requires forall k | 0 <= k < |list| :: list[k] < |dems|
    ensures forall k | 0 <= k < |m| :: m[k] < |dems| && Near(dems[m[k]], lon, lat, SLACK)
  {
    if list == [] then []
    else
      var rest, last := list[..|list| - 1], list[|list| - 1];
      Matches(dems, rest, lon, lat) + if Near(dems[last], lon, lat, SLACK) then [last] else []
  }

  ghost predicate Sized(dems: seq<Dem>) {
    forall i | 0 <= i < |dems| :: dems[i].psize > 0.0
  }

  /** The k-th of the matching models is the chosen one: the first if it is fine, otherwise the
      last before the next fine one. */
  predicate ChosenAt(dems: seq<Dem>, matches: seq<nat>, res: real, k: nat)
    requires k < |matches| && forall i | 0 <= i < |matches| :: matches[i] < |dems| && dems[matches[i]].psize > 0.0
  {
    && (k > 0 ==> forall i | 0 <= i <= k :: !Fine(dems[matches[i]], res))
    && (k + 1 == |matches| || Fine(dems[matches[0]], res) || Fine(dems[matches[k + 1]], res))
  }

  ghost predicate Chosen(dems: seq<Dem>, matches: seq<nat>, res: real, dci: int)
    requires forall i | 0 <= i < |matches| :: matches[i] < |dems| && dems[matches[i]].psize > 0.0
  {
    if matches == [] then dci == -1
    else exists k: nat | k < |matches| :: dci == matches[k] && ChosenAt(dems, matches, res, k)
  }

  lemma ChosenOnce(dems: seq<Dem>, matches: seq<nat>, res: real, k: nat, l: nat)
    requires k < l < |matches|
    requires forall i | 0 <= i < |matches| :: matches[i] < |dems| && dems[matches[i]].psize > 0.0
    requires ChosenAt(dems, matches, res, k)
    ensures !ChosenAt(dems, matches, res, l)
  {
  }

  lemma {:induction false} MatchesPrefix(dems: seq<Dem>, list: seq<nat>, lon: real, lat: real, i: nat)
    requires i <= |list| && forall k | 0 <= k < |list| :: list[k] < |dems|
    ensures Matches(dems, list[..i], lon, lat) <= Matches(dems, list, lon, lat)
    decreases |list|
  {
    if i == |list| {
      assert list[..i] == list;
    } else {
      MatchesPrefix(dems, list[..|list| - 1], lon, lat, i);
      assert list[..|list| - 1][..i] == list[..i];
    }
  }

  lemma NextMatch(dems: seq<Dem>, list: seq<nat>, lon: real, lat: real, i: nat)
    requires i < |list| && forall k | 0 <= k < |list| :: list[k] < |dems|
    ensures Matches(dems, list[..i + 1], lon, lat)
         == Matches(dems, list[..i], lon, lat) + if Near(dems[list[i]], lon, lat, SLACK) then [list[i]] else []
  {
    hide Near;
    assert list[..i + 1][..i] == list[..i];
  }

  /** The search before entry i: no match so far was fine, and the last one is remembered. */
  ghost predicate Searching(dems: seq<Dem>, m: seq<nat>, res: real, dci: int)
    requires forall i | 0 <= i < |m| :: m[i] < |dems| && dems[m[i]].psize > 0.0
  {
    && (m == [] ==> dci == -1) && (m != [] ==> dci == m[|m| - 1])
    && forall l | 0 <= l < |m| :: !Fine(dems[m[l]], res)
  }

  /** A fine match ends the search: it is chosen only when it is the first. */
  lemma FineEnds(dems: seq<Dem>, m: seq<nat>, all: seq<nat>, res: real, dci: int, j: nat)
    requires forall i | 0 <= i < |all| :: all[i] < |dems| && dems[all[i]].psize > 0.0
    requires m + [j] <= all && (forall l | 0 <= l < |m| :: m[l] == all[l]) && j == all[|m|]
    requires Searching(dems, m, res, dci) && Fine(dems[j], res)
    ensures Chosen(dems, all, res, if dci < 0 then j else dci)
  {
    hide Fine;
    var k := if m == [] then 0 else |m| - 1;
    assert ChosenAt(dems, all, res, k);
  }

  lemma ListEnds(dems: seq<Dem>, all: seq<nat>, res: real, dci: int)
    requires forall i | 0 <= i < |all| :: all[i] < |dems| && dems[all[i]].psize > 0.0
    requires Searching(dems, all, res, dci)
    ensures Chosen(dems, all, res, dci)
  {
    if all != [] {
      assert ChosenAt(dems, all, res, |all| - 1);
    }
  }

  /** The search through a list of models. */
  method Search(dems: seq<Dem>, list: seq<nat>, lon: real, lat: real, res: real) returns (dci: int)
    requires Sized(dems) && forall k | 0 <= k < |list| :: list[k] < |dems|
    ensures Chosen(dems, Matches(dems, list, lon, lat), res, dci)
  {
    hide Near, Chosen, Matches;
    ghost var all := Matches(dems, list, lon, lat);
    NoMatches(dems, lon, lat);
    dci := -1;
    for i := 0 to |list|
      invariant Searching(dems, Matches(dems, list[..i], lon, lat), res, dci)
    {
      var j := list[i];
      ghost var m := Matches(dems, list[..i], lon, lat);
      NextMatch(dems, list, lon, lat, i);
      if Near(dems[j], lon, lat, SLACK) {
        if dci < 0 {
          dci := j;
        }
        if Fine(dems[j], res) {
          MatchesPrefix(dems, list, lon, lat, i + 1);
          FineEnds(dems, m, all, res, if m == [] then -1 else dci, j);
          return;
        }
        dci := j;
      }
    }
    assert list[..|list|] == list;
    ListEnds(dems, all, res, dci);
  }

  lemma NoMatches(dems: seq<Dem>, lon: real, lat: real)
    ensures Matches(dems, [], lon, lat) == []
  {
  }

  // ----- The index agrees with a scan of all models -----

  function AllDems(n: nat): (list: seq<nat>)
    ensures |list| == n && forall i | 0 <= i < n :: list[i] == i
  {
    seq(n, i => i)
  }

  predicate Ascending(list: seq<nat>) {
    forall i, j | 0 <= i < j < |list| :: list[i] < list[j]
  }

  /** Model i is entered in the cell: it covers it, and finds room. */
  predicate Listed(dems: seq<Dem>, i: nat, r: int, c: int)
    requires i < |dems|
  {
    Covers(dems[i], r, c) && |Covering(dems, i, r, c)| < MAX_DEMINDEX
  }

  lemma {:induction false} CellListIs(dems: seq<Dem>, n: nat, r: int, c: int)
    requires n <= |dems|
    ensures Ascending(CellList(dems, n, r, c))
    ensures forall i | 0 <= i < n :: i in CellList(dems, n, r, c) <==> Listed(dems, i, r, c)
  {
    if n > 0 {
      CellListIs(dems, n - 1, r, c);
      CellListGrows(dems, n, r, c);
      hide Covers;
    }
  }

  /** The matches are the near models of the list, in its order. */
  lemma {:induction false} MatchesIs(dems: seq<Dem>, list: seq<nat>, lon: real, lat: real)
    requires Ascending(list) && forall k | 0 <= k < |list| :: list[k] < |dems|
    ensures Ascending(Matches(dems, list, lon, lat))
    ensures forall i | 0 <= i < |dems| :: i in Matches(dems, list, lon, lat)
              <==> i in list && Near(dems[i], lon, lat, SLACK)
  {
    hide Near;
    if list != [] {
      var rest, last := list[..|list| - 1], list[|list| - 1];
      MatchesIs(dems, rest, lon, lat);
      assert list == rest + [last];
      forall i | i in Matches(dems, rest, lon, lat)
        ensures i < last
      {
        assert i in rest;
      }
    }
  }

  predicate Has(list: seq<nat>, i: nat) { i in list }

  lemma {:induction false} SameAscending(a: seq<nat>, b: seq<nat>)
    requires Ascending(a) && Ascending(b) && forall i: nat :: Has(a, i) <==> Has(b, i)
    ensures a == b
    decreases |a|
  {
    hide *;
    Ends(a);
    Ends(b);
    if a != [] && b != [] {
      var p, q, c, d := a[|a| - 1], b[|b| - 1], a[..|a| - 1], b[..|b| - 1];
      assert Has(b, p) && Has(a, q);
      assert p == q;
      forall i: nat
        ensures Has(c, i) <==> Has(d, i)
      {
        assert Has(a, i) <==> Has(b, i);
      }
      SameAscending(c, d);
    }
  }

  /** The last is the largest, and the others remain when it is taken away. */
  lemma Ends(a: seq<nat>)
    requires Ascending(a)
    ensures a == [] ==> forall i: nat :: !Has(a, i)
    ensures a != [] ==>
              var p, c := a[|a| - 1], a[..|a| - 1];
              && Has(a, p) && a == c + [p] && Ascending(c)
              && forall i: nat :: (Has(a, i) ==> i <= p) && (Has(c, i) <==> Has(a, i) && i != p)
  {
  }

  /** The cell and a scan of all models offer the search the same matches exactly when every model
      near the point is listed in the point's cell. */
  lemma CellAgreesWithScan(dems: seq<Dem>, lon: real, lat: real)
    ensures Matches(dems, CellList(dems, |dems|, CellRow(lat), CellColumn(lon)), lon, lat)
         == Matches(dems, AllDems(|dems|), lon, lat)
       <==> forall i | 0 <= i < |dems| && Near(dems[i], lon, lat, SLACK) ::
           Listed(dems, i, CellRow(lat), CellColumn(lon))
  {
    var r, c := CellRow(lat), CellColumn(lon);
    var list, all := CellList(dems, |dems|, r, c), AllDems(|dems|);
    var m, n := Matches(dems, list, lon, lat), Matches(dems, all, lon, lat);
    CellListIs(dems, |dems|, r, c);
    MatchesIs(dems, list, lon, lat);
    MatchesIs(dems, all, lon, lat);
    hide Near, Listed, CellList, Matches, CellRow, CellColumn;
    forall i | 0 <= i < |dems|
      ensures i in n <==> Near(dems[i], lon, lat, SLACK)
      ensures i in m <==> Listed(dems, i, r, c) && Near(dems[i], lon, lat, SLACK)
    {
      assert all[i] == i;
    }
    if forall i | 0 <= i < |dems| && Near(dems[i], lon, lat, SLACK) :: Listed(dems, i, r, c) {
      assert forall i: nat :: Has(m, i) <==> Has(n, i);
      SameAscending(m, n);
    }
  }

  /** In a cell that has not overflowed, to be listed is to cover the cell. */
  lemma ListedWithRoom(dems: seq<Dem>, i: nat, n: nat, r: int, c: int)
    requires i < n <= |dems| && |Covering(dems, n, r, c)| <= MAX_DEMINDEX
    ensures Listed(dems, i, r, c) <==> Covers(dems[i], r, c)
  {
    CoveringGrows(dems, i, n, r, c);
  }

  lemma {:induction false} CoveringGrows(dems: seq<Dem>, i: nat, n: nat, r: int, c: int)
    requires i < n <= |dems|
    ensures |Covering(dems, i, r, c)| + (if Covers(dems[i], r, c) then 1 else 0) <= |Covering(dems, n, r, c)|
    decreases n
  {
    hide Covers;
    if i < n - 1 {
      CoveringGrows(dems, i, n - 1, r, c);
    }
  }

  // ----- The choice agrees -----

  lemma ChoiceIsOne(dems: seq<Dem>, matches: seq<nat>, res: real, d: int, k: nat)
    requires forall i | 0 <= i < |matches| :: matches[i] < |dems| && dems[matches[i]].psize > 0.0
    requires Chosen(dems, matches, res, d) && k < |matches| && ChosenAt(dems, matches, res, k)
    ensures d == matches[k]
  {
    hide ChosenAt;
    var l: nat :| l < |matches| && d == matches[l] && ChosenAt(dems, matches, res, l);
    if k < l {
      ChosenOnce(dems, matches, res, k, l);
    } else if l < k {
      ChosenOnce(dems, matches, res, l, k);
    }
  }

  /** A search that has come to model e goes no further in the list. */
  predicate EndsAt(dems: seq<Dem>, matches: seq<nat>, res: real, e: nat)
    requires forall i | 0 <= i < |matches| :: matches[i] < |dems| && dems[matches[i]].psize > 0.0
  {
    e in matches && forall k | 0 <= k < |matches| && matches[k] == e ::
      Fine(dems[e], res) || k + 1 == |matches| || Fine(dems[matches[k + 1]], res)
  }

  /** Choosing from some of the matches gives the model chosen from all of them exactly when that
      model is among them and the search ends there. */
  lemma SameChoice(dems: seq<Dem>, all: seq<nat>, some: seq<nat>, res: real, e: int, d: int)
    requires Ascending(all) && Ascending(some) && forall i | i in some :: i in all
    requires forall i | 0 <= i < |all| :: all[i] < |dems| && dems[all[i]].psize > 0.0
    requires forall i | 0 <= i < |some| :: some[i] < |dems| && dems[some[i]].psize > 0.0
    requires all != [] && Chosen(dems, all, res, e) && Chosen(dems, some, res, d)
    ensures d == e <==> EndsAt(dems, some, res, e)
  {
    var k: nat :| k < |all| && e == all[k] && ChosenAt(dems, all, res, k);
    if d == e {
      var p: nat :| p < |some| && d == some[p] && ChosenAt(dems, some, res, p);
    }
    if EndsAt(dems, some, res, e) {
      var q: nat :| q < |some| && some[q] == e;
      NoneFineBefore(dems, all, some, res, k, q);
      assert ChosenAt(dems, some, res, q);
      ChoiceIsOne(dems, some, res, d, q);
    }
  }

  lemma NoneFineBefore(dems: seq<Dem>, all: seq<nat>, some: seq<nat>, res: real, k: nat, q: nat)
    requires Ascending(all) && Ascending(some) && forall i | i in some :: i in all
    requires forall i | 0 <= i < |all| :: all[i] < |dems| && dems[all[i]].psize > 0.0
    requires forall i | 0 <= i < |some| :: some[i] < |dems| && dems[some[i]].psize > 0.0
    requires k < |all| && q < |some| && all[k] == some[q] && ChosenAt(dems, all, res, k)
    ensures k == 0 ==> q == 0
    ensures k > 0 ==> forall i | 0 <= i <= q :: !Fine(dems[some[i]], res)
  {
    hide Fine;
    forall i | 0 <= i <= q
      ensures exists j | 0 <= j <= k :: some[i] == all[j]
    {
      assert some[i] in all;
      var j :| 0 <= j < |all| && all[j] == some[i];
      assert some[i] <= some[q];
      assert j <= k;
    }
    assert k > 0 || some[0] == all[0] == some[q];
  }

  /** The model chosen from the point's cell is the one chosen from all models exactly when that
      one is listed in the cell and the search of the cell ends there. */
  lemma ChoiceAgreesWithScan(dems: seq<Dem>, lon: real, lat: real, res: real, e: int, d: int)
    requires Sized(dems) && Chosen(dems, Matches(dems, AllDems(|dems|), lon, lat), res, e)
    requires Chosen(dems, Matches(dems, CellList(dems, |dems|, CellRow(lat), CellColumn(lon)), lon, lat), res, d)
    ensures d == e <==>
              e == -1 ||
              EndsAt(dems, Matches(dems, CellList(dems, |dems|, CellRow(lat), CellColumn(lon)), lon, lat), res, e)
    ensures (forall i | 0 <= i < |dems| && Near(dems[i], lon, lat, SLACK) ::
              Listed(dems, i, CellRow(lat), CellColumn(lon))) ==> d == e
  {
    hide Near, Listed, CellList, Matches, CellRow, CellColumn, ChosenAt, EndsAt, Chosen, Ascending, AllDems;
    CellAgreesWithScan(dems, lon, lat);
    CellAmongScan(dems, lon, lat);
    ChoicesAgree(dems, Matches(dems, AllDems(|dems|), lon, lat),
                 Matches(dems, CellList(dems, |dems|, CellRow(lat), CellColumn(lon)), lon, lat), res, e, d);
  }

  /** The matches of the cell are some of all matches. */
  lemma CellAmongScan(dems: seq<Dem>, lon: real, lat: real)
    ensures var some := Matches(dems, CellList(dems, |dems|, CellRow(lat), CellColumn(lon)), lon, lat);
      var all := Matches(dems, AllDems(|dems|), lon, lat);
      Ascending(some) && Ascending(all) && forall i | i in some :: i in all
  {
    var list, all := CellList(dems, |dems|, CellRow(lat), CellColumn(lon)), AllDems(|dems|);
    CellListIs(dems, |dems|, CellRow(lat), CellColumn(lon));
    MatchesIs(dems, list, lon, lat);
    MatchesIs(dems, all, lon, lat);
    hide Near, Listed, CellList, Matches, CellRow, CellColumn;
    forall i | i in Matches(dems, list, lon, lat)
      ensures i in Matches(dems, all, lon, lat)
    {
      assert all[i] == i;
    }
  }

  lemma ChoicesAgree(dems: seq<Dem>, all: seq<nat>, some: seq<nat>, res: real, e: int, d: int)
    requires Ascending(all) && Ascending(some) && forall i | i in some :: i in all
    requires forall i | 0 <= i < |all| :: all[i] < |dems| && dems[all[i]].psize > 0.0
    requires forall i | 0 <= i < |some| :: some[i] < |dems| && dems[some[i]].psize > 0.0
    requires Chosen(dems, all, res, e) && Chosen(dems, some, res, d)
    ensures e >= -1 && (d == e <==> e == -1 || EndsAt(dems, some, res, e))
    ensures some == all ==> d == e
  {
    hide ChosenAt, EndsAt, Ascending;
    assert some != [] ==> some[0] in some;
    if all != [] {
      SameChoice(dems, all, some, res, e, d);
      if some == all {
        var k: nat :| k < |all| && e == all[k] && ChosenAt(dems, all, res, k);
        ChoiceIsOne(dems, some, res, d, k);
      }
    }
  }

  /** The models that the index serves: on the globe, and with no point between the box and the
      slack around it. */
  predicate Served(d: Dem, lon: real, lat: real) {
    Near(d, lon, lat, SLACK) ==> Near(d, lon, lat, 0.0) && d.latlr < PI / 2.0 && d.lonul < PI
  }

  lemma TruncatedGrows(x: real, y: real)
    requires x <= y
    ensures Truncated(x) <= Truncated(y)
  {
  }

  lemma SameColumn(lon: real)
    ensures CellColumn(lon) == Min(COLUMNS - 1, Max(0, ColumnOf(lon)))
    ensures CellRow(lon) == Min(ROWS - 1, Max(0, RowOf(lon)))
  {
    assert 400.0 * (lon + PI) / (2.0 * PI) == 200.0 * (PI + lon) / PI;
  }

  lemma ServedIsCovered(d: Dem, lon: real, lat: real)
    requires Served(d, lon, lat) && Near(d, lon, lat, SLACK) && -PI / 2.0 <= lat && -PI <= lon
    ensures Covers(d, CellRow(lat), CellColumn(lon))
  {
    SameColumn(lon);
    SameColumn(lat);
    TruncatedGrows(200.0 * (PI / 2.0 + d.latlr) / PI, 200.0 * (PI / 2.0 + lat) / PI);
    TruncatedGrows(200.0 * (PI / 2.0 + lat) / PI, 200.0 * (PI / 2.0 + d.latul) / PI);
    TruncatedGrows(200.0 * (PI + d.lonul) / PI, 200.0 * (PI + lon) / PI);
    TruncatedGrows(200.0 * (PI + lon) / PI, 200.0 * (PI + d.lonlr) / PI);
  }

  /** So it is if the cell has not overflowed and the index serves all models near the point. */
  lemma ServedAgree(dems: seq<Dem>, lon: real, lat: real)
    requires -PI / 2.0 <= lat && -PI <= lon && forall i | 0 <= i < |dems| :: Served(dems[i], lon, lat)
    requires |Covering(dems, |dems|, CellRow(lat), CellColumn(lon))| <= MAX_DEMINDEX
    ensures Matches(dems, CellList(dems, |dems|, CellRow(lat), CellColumn(lon)), lon, lat)
         == Matches(dems, AllDems(|dems|), lon, lat)
  {
    forall i | 0 <= i < |dems| && Near(dems[i], lon, lat, SLACK)
      ensures Listed(dems, i, CellRow(lat), CellColumn(lon))
    {
      ServedIsCovered(dems[i], lon, lat);
      ListedWithRoom(dems, i, |dems|, CellRow(lat), CellColumn(lon));
    }
    CellAgreesWithScan(dems, lon, lat);
  }

  /** A point in the slack beside a box can be looked up in a cell that does not know the box. */
  lemma SlackIsMissed()
    ensures var d, lon, lat := Dem(0.0, 1.0, 1.0, 0.0, 0.1, 10, 10), -0.00000000000005, 0.5;
      && Matches([d], AllDems(1), lon, lat) == [0]
      && Matches([d], CellList([d], 1, CellRow(lat), CellColumn(lon)), lon, lat) == []
  {
    var d, lon, lat := Dem(0.0, 1.0, 1.0, 0.0, 0.1, 10, 10), -0.00000000000005, 0.5;
    assert CellColumn(lon) == 199;
    assert ColumnOf(0.0) == 200;
    assert Covering([d], 1, CellRow(lat), 199) == Covering([d], 0, CellRow(lat), 199) == [];
    assert AllDems(1) == [0] && [0][..0] == [];
  }
}
