/**
  Pure views of the visitor table and the per-area statistics: who is in an
  area, who has stayed there too long, the rolling count history and its
  trend, and the flow-rate heuristic.
 */
module Stats {
  import opened Types
  import opened Areas

  /** A visitor's record in the location store. Times are milliseconds. */
  datatype UserLocation = UserLocation(
    oderId: string,
    areaId: string,
    enteredAt: int,
    lastUpdated: int)

  /** A record not refreshed for MORE than this many milliseconds (two minutes) is evicted. */
  const CleanupThresholdMs: int := 2 * 60 * 1000

  /** At most this many counts are kept per area. */
  const HistoryLimit: nat := 10

  /** The threshold the server uses when none is configured, in minutes. */
  const DefaultStagnationThresholdMinutes: real := 5.0

  /** The store's invariant: records are keyed by their own visitor id and name a catalog area. */
  ghost predicate WellFormedUsers(users: map<string, UserLocation>)
  {
    forall id :: id in users ==> users[id].oderId == id && users[id].areaId in AreaIds()
  }

  /** A record not refreshed for more than the cleanup threshold. */
  predicate IsStale(u: UserLocation, now: int)
  {
    now - u.lastUpdated > CleanupThresholdMs
  }

  /**
    The table after the cleanup pass: exactly the records whose lag is at
    most two minutes remain, each unchanged.
   */
  function Survivors(users: map<string, UserLocation>, now: int): (r: map<string, UserLocation>)
    ensures forall id :: id in r <==> id in users && now - users[id].lastUpdated <= CleanupThresholdMs
    ensures forall id :: id in r ==> r[id] == users[id]
  {
    map id | id in users && !IsStale(users[id], now) :: users[id]
  }

  /** Cleanup keeps the store's invariant and can only shrink the table. */
  lemma SurvivorsWellFormed(users: map<string, UserLocation>, now: int)
    requires WellFormedUsers(users)
    ensures WellFormedUsers(Survivors(users, now))
    ensures |Survivors(users, now)| <= |users|
  {
    var s := Survivors(users, now);
    SubsetCardinality(s.Keys, users.Keys);
  }

  /** The visitors currently recorded in an area. */
  function Occupants(users: map<string, UserLocation>, areaId: string): (r: set<string>)
    ensures r <= users.Keys
    ensures forall id :: id in r <==> id in users && users[id].areaId == areaId
  {
    set id | id in users && users[id].areaId == areaId
  }

  /** The occupants of an area who entered it more than `thresholdMinutes` before `now`. */
  function Stagnant(users: map<string, UserLocation>, areaId: string, now: int, thresholdMinutes: real): (r: set<string>)
    ensures r <= Occupants(users, areaId)
  {
    set id | id in users && users[id].areaId == areaId
                         && (now - users[id].enteredAt) as real > thresholdMinutes * 60.0 * 1000.0
  }

  /** The share of an area's occupants who are stagnant; 0 for an empty area. */
  function StagnationRate(users: map<string, UserLocation>, areaId: string, now: int, thresholdMinutes: real): (r: real)
    ensures 0.0 <= r <= 1.0
    ensures r == 0.0 <==> Stagnant(users, areaId, now, thresholdMinutes) == {}
    ensures r == 1.0 <==> Occupants(users, areaId) != {} && Stagnant(users, areaId, now, thresholdMinutes) == Occupants(users, areaId)
  {
    var occ := Occupants(users, areaId);
    var stuck := Stagnant(users, areaId, now, thresholdMinutes);
    SubsetCardinality(stuck, occ);
    if |occ| > 0 then |stuck| as real / |occ| as real else 0.0
  }

  /** A subset is no larger than its superset, and equally large only when equal. */
  lemma {:induction false} SubsetCardinality<T>(a: set<T>, b: set<T>)
    requires a <= b
    ensures |a| <= |b|
    ensures |a| == |b| ==> a == b
    decreases b
  {
    if a != b {
      var x :| x in b && x !in a;
      SubsetCardinality(a, b - {x});
    }
  }

  /** The count history after recording one more count: appended, then the oldest dropped past ten. */
  function Pushed(history: seq<nat>, count: nat): (r: seq<nat>)
    ensures |r| > 0 && r[|r| - 1] == count
    ensures |history| < HistoryLimit ==> r == history + [count]
    ensures |history| == HistoryLimit ==> r == history[1..] + [count]
    ensures |history| <= HistoryLimit ==> |r| <= HistoryLimit
  {
    var grown := history + [count];
    if |grown| > HistoryLimit then grown[1..] else grown
  }

  /**
    The direction the last three counts point in: the mean of the last three
    compared with the oldest of them, with a 10% band either side; stable
    while fewer than three counts exist. In whole numbers, with x the oldest
    of the last three counts and y, z the other two, increasing means
    10(x+y+z) > 33x and decreasing means 10(x+y+z) < 27x.
   */
  function TrendOf(history: seq<nat>): (r: Trend)
    ensures |history| < 3 ==> r == Stable
    ensures |history| >= 3 ==>
              var x, y, z := history[|history| - 3], history[|history| - 2], history[|history| - 1];
              && (r == Increasing <==> 10 * (x + y + z) > 33 * x)
              && (r == Decreasing <==> 10 * (x + y + z) < 27 * x)
  {
    if |history| < 3 then Stable
    else
      var recent := history[|history| - 3..];
      var avg := (recent[0] + recent[1] + recent[2]) as real / 3.0;
      var first := recent[0] as real;
      assert avg > first * 1.1 <==> 10 * (recent[0] + recent[1] + recent[2]) > 33 * recent[0];
      assert avg < first * 0.9 <==> 10 * (recent[0] + recent[1] + recent[2]) < 27 * recent[0];
      if avg > first * 1.1 then Increasing
      else if avg < first * 0.9 then Decreasing
      else Stable
  }

  /** Counts that never change read as stable. */
  lemma SteadyCountsAreStable(history: seq<nat>)
    requires |history| >= 3
    requires history[|history| - 1] == history[|history| - 2] == history[|history| - 3]
    ensures TrendOf(history) == Stable
  {
  }

  /** Counts 10, 12, 15 on three consecutive passes: the mean 12.33 exceeds 11, so the trend is increasing. */
  lemma RisingExample()
    ensures TrendOf([10, 12, 15]) == Increasing
    ensures TrendOf(Pushed(Pushed(Pushed([], 10), 12), 15)) == Increasing
  {
    assert Pushed(Pushed(Pushed([], 10), 12), 15) == [10, 12, 15];
  }

  /**
    The flow-rate heuristic: 1 while at most half the occupants are stagnant,
    and the non-stagnant share once more than half are.
   */
  function FlowRate(stagnationRate: real): (r: real)
    requires 0.0 <= stagnationRate <= 1.0
    ensures 0.0 <= r <= 1.0
    ensures r == 1.0 <==> stagnationRate <= 0.5
    ensures stagnationRate > 0.5 ==> r < 0.5 && r + stagnationRate == 1.0
  {
    if stagnationRate > 0.5 then 1.0 - stagnationRate else 1.0
  }

  /** The status of one area, given the table after cleanup and the area's history after this pass's push. */
  function StatusOf(area: AreaBounds, users: map<string, UserLocation>, history: seq<nat>,
                    now: int, thresholdMinutes: real): (s: AreaStatus)
    requires area.capacity > 0
    ensures s.areaId == area.id && s.areaName == area.name && s.hall == area.hall
    ensures s.capacity == area.capacity && s.lastUpdated == now
    ensures s.currentCount == |Occupants(users, area.id)|
    ensures s.density * area.capacity as real == s.currentCount as real
    ensures s.stagnationRate == StagnationRate(users, area.id, now, thresholdMinutes)
    ensures s.flowRate == FlowRate(s.stagnationRate)
    ensures s.trend == TrendOf(history)
  {
    var count := |Occupants(users, area.id)|;
    var rate := StagnationRate(users, area.id, now, thresholdMinutes);
    AreaStatus(area.id, area.name, area.hall, count, area.capacity,
               count as real / area.capacity as real, rate, FlowRate(rate),
               TrendOf(history), now)
  }

  /**
    What a status says: density is occupancy over capacity with no clamp
    (0 when empty, 1 at capacity, above 1 when overcrowded), and the
    stagnation and flow rates are ratios in [0, 1].
   */
  lemma StatusFacts(area: AreaBounds, users: map<string, UserLocation>, history: seq<nat>,
                    now: int, thresholdMinutes: real)
    requires area.capacity > 0
    ensures var s := StatusOf(area, users, history, now, thresholdMinutes);
            && (s.density == 0.0 <==> s.currentCount == 0)
            && (s.density == 1.0 <==> s.currentCount == area.capacity)
            && (s.density > 1.0 <==> s.currentCount > area.capacity)
            && 0.0 <= s.stagnationRate <= 1.0
            && (s.currentCount == 0 ==> s.stagnationRate == 0.0)
            && 0.0 <= s.flowRate <= 1.0
  {
    var s := StatusOf(area, users, history, now, thresholdMinutes);
    RatioAgainstOne(s.density, s.currentCount as real, area.capacity as real);
    if s.currentCount == 0 {
      assert Stagnant(users, area.id, now, thresholdMinutes) == {};
    }
  }

  /** A ratio with a positive denominator compares with 0 and 1 as its numerator does with 0 and the denominator. */
  lemma RatioAgainstOne(d: real, c: real, cap: real)
    requires cap > 0.0 && d * cap == c
    ensures d == 0.0 <==> c == 0.0
    ensures d == 1.0 <==> c == cap
    ensures d > 1.0 <==> c > cap
  {
    if d > 1.0 {
      var e := d - 1.0;
      assert e * cap > 0.0;
      assert e * cap == d * cap - 1.0 * cap;
    } else if d < 1.0 {
      var e := 1.0 - d;
      assert e * cap > 0.0;
      assert e * cap == 1.0 * cap - d * cap;
      if d > 0.0 { assert d * cap > 0.0; }
      if d < 0.0 {
        var f := 0.0 - d;
        assert f * cap > 0.0;
        assert f * cap == 0.0 - d * cap;
      }
    } else {
      assert d * cap == 1.0 * cap;
    }
  }

  /** The sum of the occupant counts of a list of statuses. */
  function TotalCount(statuses: seq<AreaStatus>): nat
  {
    if statuses == [] then 0
    else TotalCount(statuses[..|statuses| - 1]) + statuses[|statuses| - 1].currentCount
  }

  /** The visitors whose area is one of `ids`. */
  function Covered(users: map<string, UserLocation>, ids: set<string>): set<string>
  {
    set id | id in users && users[id].areaId in ids
  }

  /**
    Counting each of a list of distinct areas separately and adding up gives
    the number of visitors in any of them: nobody is counted twice.
   */
  lemma {:induction false} TotalCountIsCovered(users: map<string, UserLocation>, areas: seq<AreaBounds>,
                                               statuses: seq<AreaStatus>)
    requires |statuses| == |areas| && DistinctIds(areas)
    requires forall i :: 0 <= i < |statuses| ==> statuses[i].currentCount == |Occupants(users, areas[i].id)|
    ensures TotalCount(statuses) == |Covered(users, IdsOf(areas))|
  {
    if statuses == [] {
      assert IdsOf(areas) == {};
      assert Covered(users, IdsOf(areas)) == {};
    } else {
      var n := |statuses| - 1;
      var before := areas[..n];
      TotalCountIsCovered(users, before, statuses[..n]);
      IdsOfSnoc(areas);
      CoveredSplit(users, IdsOf(before), areas[n].id);
    }
  }

  /** The identifiers of a non-empty list are those of its front plus its last, which is new when they are distinct. */
  lemma IdsOfSnoc(areas: seq<AreaBounds>)
    requires |areas| > 0 && DistinctIds(areas)
    ensures IdsOf(areas) == IdsOf(areas[..|areas| - 1]) + {areas[|areas| - 1].id}
    ensures areas[|areas| - 1].id !in IdsOf(areas[..|areas| - 1])
  {
    var n := |areas| - 1;
    var before := areas[..n];
    forall x | x in IdsOf(areas) ensures x in IdsOf(before) + {areas[n].id} {
      var i :| 0 <= i < |areas| && areas[i].id == x;
      if i < n { assert before[i].id == x; }
    }
    forall x | x in IdsOf(before) ensures x in IdsOf(areas) {
      var i :| 0 <= i < |before| && before[i].id == x;
      assert areas[i].id == x;
    }
  }

  /** Adding one new area identifier adds exactly that area's occupants. */
  lemma CoveredSplit(users: map<string, UserLocation>, ids: set<string>, x: string)
    requires x !in ids
    ensures |Covered(users, ids + {x})| == |Covered(users, ids)| + |Occupants(users, x)|
  {
    assert Covered(users, ids + {x}) == Covered(users, ids) + Occupants(users, x);
    assert Covered(users, ids) !! Occupants(users, x);
  }

  /** In a well-formed table every visitor is in some catalog area, so the per-area counts add up to the table's size. */
  lemma CountsAddUpToVisitors(users: map<string, UserLocation>, statuses: seq<AreaStatus>)
    requires WellFormedUsers(users)
    requires |statuses| == |BigsightAreas|
    requires forall i :: 0 <= i < |statuses| ==> statuses[i].currentCount == |Occupants(users, BigsightAreas[i].id)|
    ensures TotalCount(statuses) == |users|
  {
    CatalogIdsDistinct();
    TotalCountIsCovered(users, BigsightAreas, statuses);
    CoveredByCatalog(users);
    assert |Covered(users, IdsOf(BigsightAreas))| == |users.Keys|;
  }

  /** In a well-formed table the catalog areas together hold every visitor. */
  lemma CoveredByCatalog(users: map<string, UserLocation>)
    requires WellFormedUsers(users)
    ensures Covered(users, AreaIds()) == users.Keys
  {
  }
}
