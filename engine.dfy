/**
  The server's in-memory state: the visitor table and the per-area count
  histories, with the three operations that change them. Time is passed in
  as `now` (milliseconds) instead of being read from a clock.
 */
module Engine {
  import opened Types
  import opened Areas
  import opened Stats

  /** The history recorded so far for an area, empty when there is none yet. */
  function HistoryOf(histories: map<string, seq<nat>>, areaId: string): seq<nat>
  {
    if areaId in histories then histories[areaId] else []
  }

  /** An area's history after this pass records its current occupant count. */
  function Recorded(histories: map<string, seq<nat>>, users: map<string, UserLocation>, area: AreaBounds): seq<nat>
  {
    Pushed(HistoryOf(histories, area.id), |Occupants(users, area.id)|)
  }

  ghost predicate HistoriesBounded(histories: map<string, seq<nat>>)
  {
    forall id :: id in histories ==> |histories[id]| <= HistoryLimit
  }

  /** After the first `i` areas of the pass: those have their count recorded, the others are untouched. */
  ghost predicate HistoriesAfter(start: map<string, seq<nat>>, histories: map<string, seq<nat>>,
                                 users: map<string, UserLocation>, areas: seq<AreaBounds>, i: nat)
  {
    forall k :: 0 <= k < |areas| ==>
      HistoryOf(histories, areas[k].id) == if k < i then Recorded(start, users, areas[k]) else HistoryOf(start, areas[k].id)
  }

  /** After the first `i` areas of the pass: their statuses, in order. */
  ghost predicate StatusesAfter(start: map<string, seq<nat>>, users: map<string, UserLocation>, areas: seq<AreaBounds>,
                                statuses: seq<AreaStatus>, i: nat, now: int, thresholdMinutes: real)
  {
    && i <= |areas| && |statuses| == i
    && forall k :: 0 <= k < i ==>
         areas[k].capacity > 0 && statuses[k] == StatusOf(areas[k], users, Recorded(start, users, areas[k]), now, thresholdMinutes)
  }

  /** Recording area `i` advances the pass's history invariant by one area. */
  lemma HistoriesStep(start: map<string, seq<nat>>, histories: map<string, seq<nat>>,
                      users: map<string, UserLocation>, areas: seq<AreaBounds>, i: nat)
    requires i < |areas| && DistinctIds(areas)
    requires HistoriesAfter(start, histories, users, areas, i)
    ensures HistoriesAfter(start, histories[areas[i].id := Recorded(start, users, areas[i])], users, areas, i + 1)
  {
    var next := histories[areas[i].id := Recorded(start, users, areas[i])];
    forall k | 0 <= k < |areas|
      ensures HistoryOf(next, areas[k].id)
              == if k < i + 1 then Recorded(start, users, areas[k]) else HistoryOf(start, areas[k].id)
    {
      if k != i {
        assert areas[k].id != areas[i].id by {
          if k < i { assert areas[k].id != areas[i].id; } else { assert areas[i].id != areas[k].id; }
        }
      }
    }
  }

  /** Recording area `i` adds its identifier to the history keys. */
  lemma KeysStep(start: map<string, seq<nat>>, histories: map<string, seq<nat>>, areas: seq<AreaBounds>, i: nat,
                 next: map<string, seq<nat>>)
    requires i < |areas| && DistinctIds(areas)
    requires histories.Keys == start.Keys + IdsOf(areas[..i])
    requires next.Keys == histories.Keys + {areas[i].id}
    ensures next.Keys == start.Keys + IdsOf(areas[..i + 1])
  {
    IdsOfPrefix(areas, i);
  }

  /** Appending area `i`'s status advances the pass's status invariant by one area. */
  lemma StatusesStep(start: map<string, seq<nat>>, users: map<string, UserLocation>, areas: seq<AreaBounds>,
                     statuses: seq<AreaStatus>, i: nat, now: int, thresholdMinutes: real, status: AreaStatus)
    requires i < |areas| && areas[i].capacity > 0
    requires StatusesAfter(start, users, areas, statuses, i, now, thresholdMinutes)
    requires status == StatusOf(areas[i], users, Recorded(start, users, areas[i]), now, thresholdMinutes)
    ensures StatusesAfter(start, users, areas, statuses + [status], i + 1, now, thresholdMinutes)
  {
  }

  class CrowdEngine {
    /** The last known location of each visitor, keyed by visitor id. */
    var users: map<string, UserLocation>
    /** The most recent occupant counts of each area, oldest first. */
    var histories: map<string, seq<nat>>

    /**
      Records are keyed by their own visitor id and name a catalog area;
      histories exist only for catalog areas and hold at most ten counts.
     */
    ghost predicate Valid()
      reads this
    {
      && WellFormedUsers(users)
      && histories.Keys <= AreaIds()
      && HistoriesBounded(histories)
    }

    /** An engine with nobody in the venue and no history yet. */
    constructor ()
      ensures Valid()
      ensures users == map[] && histories == map[]
    {
      users := map[];
      histories := map[];
    }

    /** The number of visitors currently tracked; under the invariant, the number inside some catalog area. */
    function TotalVisitors(): (n: nat)
      requires Valid()
      reads this
      ensures n == |users.Keys|
      ensures n == |Covered(users, AreaIds())|
    {
      CoveredByCatalog(users);
      |users|
    }

    /**
      Records a ping. A point outside every area forgets the visitor. A
      point in the visitor's current area only refreshes the last-update
      time, keeping the entry time. Any other area, or a first ping, starts
      a fresh record entered and updated at the ping's time. The detected
      area's id is returned.
     */
    method UpdateUserLocation(data: LocationData) returns (areaId: Option<string>)
      requires Valid()
      modifies this
      ensures Valid()
      ensures histories == old(histories)
      ensures var area := DetectArea(data.latitude, data.longitude);
              areaId == if area.None? then None else Some(area.value.id)
      ensures var area := DetectArea(data.latitude, data.longitude);
              area.None? ==> users == old(users) - {data.oderId}
      ensures var area := DetectArea(data.latitude, data.longitude);
              var id := data.oderId;
              area.Some? && id in old(users) && old(users)[id].areaId == area.value.id ==>
                users == old(users)[id := old(users)[id].(lastUpdated := data.timestamp)]
      ensures var area := DetectArea(data.latitude, data.longitude);
              var id := data.oderId;
              area.Some? && !(id in old(users) && old(users)[id].areaId == area.value.id) ==>
                users == old(users)[id := UserLocation(id, area.value.id, data.timestamp, data.timestamp)]
    {
      var area := DetectArea(data.latitude, data.longitude);
      if area.None? {
        users := users - {data.oderId};
        return None;
      }
      DetectedIsCatalogArea(data.latitude, data.longitude);
      var id := data.oderId;
      if id in users && users[id].areaId == area.value.id {
        users := users[id := users[id].(lastUpdated := data.timestamp)];
      } else {
        users := users[id := UserLocation(id, area.value.id, data.timestamp, data.timestamp)];
      }
      areaId := Some(area.value.id);
    }

    /**
      The cleanup pass: visits every record once and deletes those not
      refreshed for more than two minutes.
     */
    method EvictStale(now: int)
      requires Valid()
      modifies this
      ensures Valid()
      ensures users == Survivors(old(users), now)
      ensures histories == old(histories)
    {
      SurvivorsWellFormed(users, now);
      var pending := users.Keys;
      while pending != {}
        invariant pending <= old(users).Keys
        invariant histories == old(histories)
        invariant users == map id | id in old(users) && (id in pending || !IsStale(old(users)[id], now))
                                 :: old(users)[id]
        decreases pending
      {
        var id :| id in pending;
        if IsStale(users[id], now) {
          users := users - {id};
        }
        pending := pending - {id};
      }
    }

    /**
      One statistics pass: cleanup, then for each catalog area in catalog
      order its status, recording its count in its history exactly once.
     */
    method CalculateAreaStatus(thresholdMinutes: real, now: int) returns (statuses: seq<AreaStatus>)
      requires Valid()
      modifies this
      ensures Valid()
      ensures users == Survivors(old(users), now)
      ensures |statuses| == |BigsightAreas|
      ensures histories.Keys == old(histories).Keys + AreaIds()
      ensures forall i :: 0 <= i < |BigsightAreas| ==>
                var area := BigsightAreas[i];
                && histories[area.id] == Recorded(old(histories), users, area)
                && statuses[i] == StatusOf(area, users, histories[area.id], now, thresholdMinutes)
      ensures TotalCount(statuses) == TotalVisitors()
    {
      EvictStale(now);
      CatalogShape();
      CatalogIdsDistinct();
      statuses := RecordAreas(BigsightAreas, thresholdMinutes, now);
      CountsAddUpToVisitors(users, statuses);
    }

    /** The per-area part of the statistics pass, over any list of distinct catalog areas. */
    method RecordAreas(areas: seq<AreaBounds>, thresholdMinutes: real, now: int) returns (statuses: seq<AreaStatus>)
      requires Valid()
      requires DistinctIds(areas) && IdsOf(areas) <= AreaIds()
      requires forall i :: 0 <= i < |areas| ==> areas[i].capacity > 0
      modifies this
      ensures Valid()
      ensures users == old(users)
      ensures |statuses| == |areas|
      ensures histories.Keys == old(histories).Keys + IdsOf(areas)
      ensures forall id :: id in old(histories) && id !in IdsOf(areas) ==> histories[id] == old(histories)[id]
      ensures forall i :: 0 <= i < |areas| ==>
                var area := areas[i];
                && histories[area.id] == Recorded(old(histories), users, area)
                && statuses[i] == StatusOf(area, users, histories[area.id], now, thresholdMinutes)
    {
      statuses := [];
      var i := 0;
      while i < |areas|
        invariant 0 <= i <= |areas|
        invariant users == old(users)
        invariant histories.Keys == old(histories).Keys + IdsOf(areas[..i])
        invariant HistoriesBounded(histories)
        invariant forall id :: id in old(histories) && id !in IdsOf(areas) ==> histories[id] == old(histories)[id]
        invariant HistoriesAfter(old(histories), histories, users, areas, i)
        invariant StatusesAfter(old(histories), users, areas, statuses, i, now, thresholdMinutes)
      {
        var area := areas[i];
        ghost var before, done := histories, statuses;
        assert HistoryOf(before, area.id) == HistoryOf(old(histories), area.id);
        assert area.id in IdsOf(areas);
        var status := RecordArea(area, thresholdMinutes, now);
        HistoriesStep(old(histories), before, users, areas, i);
        KeysStep(old(histories), before, areas, i, histories);
        statuses := statuses + [status];
        StatusesStep(old(histories), users, areas, done, i, now, thresholdMinutes, status);
        i := i + 1;
      }
      assert areas[..i] == areas;
      assert histories.Keys <= AreaIds();
    }

    /** Records one area's count in its history and returns the area's status. */
    method RecordArea(area: AreaBounds, thresholdMinutes: real, now: int) returns (status: AreaStatus)
      requires HistoriesBounded(histories)
      requires area.capacity > 0
      modifies this
      ensures users == old(users)
      ensures histories == old(histories)[area.id := Recorded(old(histories), users, area)]
      ensures status == StatusOf(area, users, Recorded(old(histories), users, area), now, thresholdMinutes)
      ensures HistoriesBounded(histories)
    {
      var count := |Occupants(users, area.id)|;
      var history := HistoryOf(histories, area.id);
      history := Pushed(history, count);
      histories := histories[area.id := history];
      status := StatusOf(area, users, history, now, thresholdMinutes);
    }
  }

  /** Growing a prefix of distinct areas by one adds one new identifier. */
  lemma IdsOfPrefix(areas: seq<AreaBounds>, i: nat)
    requires i < |areas| && DistinctIds(areas)
    ensures IdsOf(areas[..i + 1]) == IdsOf(areas[..i]) + {areas[i].id}
    ensures forall k :: i < k < |areas| ==> areas[k].id != areas[i].id
    ensures forall k :: 0 <= k < i ==> areas[k].id != areas[i].id
  {
    var p := areas[..i + 1];
    assert DistinctIds(p);
    assert p[..i] == areas[..i];
    IdsOfSnoc(p);
  }
}
