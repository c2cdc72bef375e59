/**
  Record shapes shared by the crowd monitor's server and dashboard, and the
  classifier that turns an area's density into a display level.
 */
module Types {

  datatype Option<T> = None | Some(value: T)

  /** The three hall groups of the venue. */
  datatype Hall = East | West | South

  /**
    One venue area: an axis-aligned latitude/longitude box and the number of
    people it is built to hold.
   */
  datatype AreaBounds = AreaBounds(
    id: string,
    name: string,
    hall: Hall,
    minLat: real,
    maxLat: real,
    minLng: real,
    maxLng: real,
    capacity: nat)

  /** One location ping from a visitor's device; `timestamp` is in milliseconds. */
  datatype LocationData = LocationData(
    oderId: string,
    latitude: real,
    longitude: real,
    accuracy: real,
    timestamp: int)

  datatype Trend = Increasing | Stable | Decreasing

  /** The congestion figures of one area at one instant. */
  datatype AreaStatus = AreaStatus(
    areaId: string,
    areaName: string,
    hall: Hall,
    currentCount: nat,
    capacity: nat,
    density: real,
    stagnationRate: real,
    flowRate: real,
    trend: Trend,
    lastUpdated: int)

  datatype Severity = Warning | Danger | Critical

  /** A congestion alert, without its presentation fields (id, message, duration, timestamp). */
  datatype StagnationAlert = StagnationAlert(
    areaId: string,
    areaName: string,
    severity: Severity)

  datatype DensityLevel = Low | Moderate | High | Critical

  /** The order low < moderate < high < critical. */
  function LevelRank(l: DensityLevel): nat
  {
    match l
    case Low => 0
    case Moderate => 1
    case High => 2
    case Critical => 3
  }

  /**
    The display level of a density. Every density has one; the bands are
    half-open on the right, and everything from 0.85 up, overcapacity
    included, is critical.
   */
  function GetDensityLevel(density: real): (l: DensityLevel)
    ensures l == Low <==> density < 0.5
    ensures l == Moderate <==> 0.5 <= density < 0.7
    ensures l == High <==> 0.7 <= density < 0.85
    ensures l == DensityLevel.Critical <==> density >= 0.85
  {
    if density < 0.5 then Low
    else if density < 0.7 then Moderate
    else if density < 0.85 then High
    else DensityLevel.Critical
  }

  /** A larger density never yields a lower level. */
  lemma DensityLevelMonotone(d1: real, d2: real)
    requires d1 <= d2
    ensures LevelRank(GetDensityLevel(d1)) <= LevelRank(GetDensityLevel(d2))
  {
  }

  /** An overcrowded area (more occupants than capacity) is always shown as critical. */
  lemma OvercapacityIsCritical(density: real)
    requires density > 1.0
    ensures GetDensityLevel(density) == DensityLevel.Critical
  {
  }
}
