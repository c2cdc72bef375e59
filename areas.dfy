/**
  The venue's area catalog and the point-in-area lookup. Coordinates are
  exact reals, so the inclusive edge comparisons are modelled without
  floating-point rounding.
 */
module Areas {
  import opened Types

  const East1 := AreaBounds("east-1", "東1ホール", East, 35.6295, 35.6305, 139.7940, 139.7955, 3000)
  const East2 := AreaBounds("east-2", "東2ホール", East, 35.6295, 35.6305, 139.7955, 139.7970, 3000)
  const East3 := AreaBounds("east-3", "東3ホール", East, 35.6295, 35.6305, 139.7970, 139.7985, 3000)
  const East4 := AreaBounds("east-4", "東4ホール", East, 35.6280, 35.6290, 139.7940, 139.7955, 3000)
  const East5 := AreaBounds("east-5", "東5ホール", East, 35.6280, 35.6290, 139.7955, 139.7970, 3000)
  const East6 := AreaBounds("east-6", "東6ホール", East, 35.6280, 35.6290, 139.7970, 139.7985, 3000)
  const West1 := AreaBounds("west-1", "西1ホール", West, 35.6310, 35.6320, 139.7920, 139.7935, 2500)
  const West2 := AreaBounds("west-2", "西2ホール", West, 35.6310, 35.6320, 139.7935, 139.7950, 2500)
  const West3 := AreaBounds("west-3", "西3ホール", West, 35.6320, 35.6330, 139.7920, 139.7935, 2000)
  const West4 := AreaBounds("west-4", "西4ホール", West, 35.6320, 35.6330, 139.7935, 139.7950, 2000)
  const South1 := AreaBounds("south-1", "南1ホール", South, 35.6265, 35.6275, 139.7945, 139.7960, 3500)
  const South2 := AreaBounds("south-2", "南2ホール", South, 35.6265, 35.6275, 139.7960, 139.7975, 3500)
  const South3 := AreaBounds("south-3", "南3ホール", South, 35.6255, 35.6265, 139.7945, 139.7960, 3500)
  const South4 := AreaBounds("south-4", "南4ホール", South, 35.6255, 35.6265, 139.7960, 139.7975, 3500)
  const EntranceEast := AreaBounds("entrance-east", "東エントランス", East, 35.6302, 35.6310, 139.7955, 139.7975, 2000)
  const PassageEw := AreaBounds("passage-ew", "東西連絡通路", East, 35.6305, 35.6315, 139.7940, 139.7955, 1500)

  /** The catalog, in the order that decides which of two overlapping boxes wins. */
  const BigsightAreas: seq<AreaBounds> := [
    East1, East2, East3, East4, East5, East6,
    West1, West2, West3, West4,
    South1, South2, South3, South4,
    EntranceEast, PassageEw
  ]

  /** The identifiers of a list of areas. */
  function IdsOf(areas: seq<AreaBounds>): set<string>
  {
    set i | 0 <= i < |areas| :: areas[i].id
  }

  /** The identifiers of the catalog: the only values a visitor record's area may take. */
  function AreaIds(): set<string>
  {
    IdsOf(BigsightAreas)
  }

  ghost predicate DistinctIds(areas: seq<AreaBounds>)
  {
    forall i, j :: 0 <= i < j < |areas| ==> areas[i].id != areas[j].id
  }

  /** Inclusive containment on all four edges. */
  predicate Contains(area: AreaBounds, lat: real, lng: real)
  {
    lat >= area.minLat && lat <= area.maxLat && lng >= area.minLng && lng <= area.maxLng
  }

  /** The index of the first area, in list order, whose box holds the point. */
  function FirstMatch(areas: seq<AreaBounds>, lat: real, lng: real): (r: Option<nat>)
    ensures r.Some? ==> r.value < |areas| && Contains(areas[r.value], lat, lng)
    ensures r.Some? ==> forall j :: 0 <= j < r.value ==> !Contains(areas[j], lat, lng)
    ensures r.None? <==> forall j :: 0 <= j < |areas| ==> !Contains(areas[j], lat, lng)
  {
    if areas == [] then None
    else if Contains(areas[0], lat, lng) then Some(0)
    else match FirstMatch(areas[1..], lat, lng)
      case None => None
      case Some(k) => Some(k + 1)
  }

  /**
    The area a point lies in: the first catalog area whose box contains it,
    or None exactly when no box does.
   */
  function DetectArea(lat: real, lng: real): (r: Option<AreaBounds>)
    ensures r.Some? ==> exists i :: 0 <= i < |BigsightAreas| && BigsightAreas[i] == r.value
                                    && Contains(BigsightAreas[i], lat, lng)
                                    && forall j :: 0 <= j < i ==> !Contains(BigsightAreas[j], lat, lng)
    ensures r.None? <==> forall j :: 0 <= j < |BigsightAreas| ==> !Contains(BigsightAreas[j], lat, lng)
  {
    match FirstMatch(BigsightAreas, lat, lng)
    case None => None
    case Some(i) => Some(BigsightAreas[i])
  }

  /** The catalog has sixteen areas, every one with room for someone. */
  lemma CatalogShape()
    ensures |BigsightAreas| == 16
    ensures forall i :: 0 <= i < |BigsightAreas| ==> BigsightAreas[i].capacity > 0
  {
  }

  /** No two catalog areas share an identifier. */
  lemma CatalogIdsDistinct()
    ensures DistinctIds(BigsightAreas)
  {
  }

  /** An area that detection returns is a catalog area, so its identifier is a catalog identifier. */
  lemma DetectedIsCatalogArea(lat: real, lng: real)
    requires DetectArea(lat, lng).Some?
    ensures DetectArea(lat, lng).value.id in AreaIds()
    ensures DetectArea(lat, lng).value.capacity > 0
  {
    var i :| 0 <= i < |BigsightAreas| && BigsightAreas[i] == DetectArea(lat, lng).value;
    CatalogShape();
  }

  /**
    East hall 2 and the east entrance overlap on a strip of latitudes; east
    hall 2 comes first in the catalog and wins there (at the shared
    longitude 139.7955, east hall 1 wins instead; see below).
   */
  lemma EastTwoShadowsEntranceEast(lat: real, lng: real)
    requires 35.6302 <= lat <= 35.6305 && 139.7955 < lng <= 139.7970
    ensures Contains(EntranceEast, lat, lng) && Contains(East2, lat, lng)
    ensures DetectArea(lat, lng) == Some(East2)
  {
    assert !Contains(BigsightAreas[0], lat, lng) && Contains(BigsightAreas[1], lat, lng);
  }

  /** On latitude 35.6305 east hall 1 and the east-west passage share an edge; east hall 1 wins. */
  lemma EastOneWinsPassageEdge(lng: real)
    requires 139.7940 <= lng <= 139.7955
    ensures Contains(PassageEw, 35.6305, lng) && Contains(East1, 35.6305, lng)
    ensures DetectArea(35.6305, lng) == Some(East1)
  {
    assert Contains(BigsightAreas[0], 35.6305, lng);
  }

  /** Neighbouring halls share a longitude edge; the shared edge belongs to the earlier hall. */
  lemma SharedHallEdgeGoesToEarlier(lat: real)
    requires 35.6295 <= lat <= 35.6305
    ensures Contains(East2, lat, 139.7955)
    ensures DetectArea(lat, 139.7955) == Some(East1)
  {
    assert Contains(BigsightAreas[0], lat, 139.7955);
  }

  /**
    The strip of latitudes strictly between east halls 1-3 and east halls
    4-6 lies in no area anywhere along the east halls' longitudes.
   */
  lemma GapBetweenHallsIsOutside(lat: real, lng: real)
    requires 35.6290 < lat < 35.6295 && 139.7940 <= lng <= 139.7985
    ensures DetectArea(lat, lng) == None
  {
  }
}
