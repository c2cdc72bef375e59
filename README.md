# Comiket crowd monitor: the server's spatial-state engine

The server of the crowd monitor for Tokyo Big Sight keeps a small amount of state in memory and updates it as visitors' phones report their positions:

- a **catalog** of sixteen venue areas, each an axis-aligned latitude/longitude box with a capacity;
- a **visitor table** mapping each anonymous visitor id to the area they are in, when they entered it and when they last reported;
- a **history** of the last ten occupant counts of each area.

This project models that engine in Dafny and proves what it promises. The engine has four operations:

1. A location ping is resolved to the first catalog area whose box contains it. The visitor's record is then upserted, or deleted when the point lies outside every box.
2. A statistics pass first evicts visitors silent for more than two minutes. For each area, in catalog order, it then computes the occupant count, the density (count over capacity), the stagnation rate (share of occupants who entered more than a threshold ago) and the flow-rate heuristic. It also appends the count to the area's bounded history and derives a trend from the last three counts.
3. Alert generation takes the statuses that are both dense and stagnant, gives each a severity, and orders the alerts critical, then danger, then warning. The order is stable.
4. The visitor total is the size of the table. The dashboard's density classifier maps a density to low, moderate, high or critical.

Modules:

- `Types` (types.dfy): the record shapes and the density classifier.
- `Areas` (areas.dfy): the catalog and the lookup.
- `Stats` (stats.dfy): pure views of the table, namely occupants, stagnation, cleanup, history and trend, flow rate and per-area status.
- `Alerts` (alerts.dfy): gating, severity and the stable severity order, with the generating loop.
- `Engine` (engine.dfy): the class `CrowdEngine`. Its two fields are `users` and `histories`, and its methods change them in place.

Times are integer milliseconds passed in as `now`. Coordinates, thresholds and ratios are exact `real`s.

An area at exactly 90% density whose occupants are all stagnant raises a danger alert, not a critical one, because the critical band is strictly above 90% density (server/utils/areas.ts:156). `Alerts.NinetyPercentFullyStagnantIsDanger` proves this, and so does `Alerts.NinetyStuckVisitorsScenario`, which builds the area from 90 visitors.

## Model

| member | source | states |
|---|---|---|
| Areas.CatalogShape | server/utils/areas.ts:5-29 | the catalog has sixteen areas and every capacity is positive, so no density divides by zero |
| Areas.CatalogIdsDistinct | server/utils/areas.ts:5-29 | no two catalog areas share an id, so per-area counts never overlap |
| Areas.FirstMatch | server/utils/areas.ts:33-43 | returns the first index, in list order, whose box contains the point with inclusive bounds on all four edges; returns none exactly when no box contains it |
| Areas.DetectArea | server/utils/areas.ts:32-44 | the detected area is a catalog entry that contains the point, and no earlier entry contains it; the result is null exactly when no catalog box contains the point |
| Areas.DetectedIsCatalogArea | server/utils/areas.ts:32-44 | a detected area's id is a catalog id and its capacity is positive |
| Areas.EastTwoShadowsEntranceEast | server/utils/areas.ts:8 | on lat 35.6302–35.6305 and lng in (139.7955, 139.7970], east hall 2 and the east entrance both contain the point, and east hall 2 wins |
| Areas.EastOneWinsPassageEdge | server/utils/areas.ts:7 | at lat 35.6305 east hall 1 and the east-west passage share an edge, and east hall 1 wins |
| Areas.SharedHallEdgeGoesToEarlier | server/utils/areas.ts:7-8 | lng 139.7955 lies in both east halls 1 and 2 and resolves to east hall 1 |
| Areas.GapBetweenHallsIsOutside | server/utils/areas.ts:32-44 | every point with latitude strictly between 35.6290 and 35.6295 and longitude within the east halls' span [139.7940, 139.7985] lies in no area |
| Engine.CrowdEngine.UpdateUserLocation | server/utils/areas.ts:58-83 | outside every area, the visitor's record is deleted, nothing else changes and null is returned; in the same area, only `lastUpdated` becomes the ping's timestamp and `enteredAt` is kept; otherwise the record is replaced by one in the new area entered and updated at the timestamp; the area id is returned; histories are untouched; the table invariant is kept |
| Stats.Survivors | server/utils/areas.ts:91-96 | a record survives cleanup exactly when its lag is at most 120000 ms, so a lag of exactly 120000 ms survives; surviving records are unchanged |
| Stats.SurvivorsWellFormed | server/utils/areas.ts:91-96 | cleanup keeps the table invariant and never grows the table |
| Engine.CrowdEngine.EvictStale | server/utils/areas.ts:92-96 | the delete-while-iterating loop leaves exactly the survivors of cleanup, and histories are untouched |
| Stats.Occupants | server/utils/areas.ts:100-102 | an area's occupants are exactly the tracked visitors whose record names that area |
| Stats.Stagnant | server/utils/areas.ts:108-110 | the stagnant visitors are occupants of the area who entered strictly more than the threshold before now |
| Stats.StagnationRate | server/utils/areas.ts:111-113 | the rate lies in [0, 1]; it is 0 exactly when nobody is stagnant, which covers the empty area; it is 1 exactly when the area is occupied and every occupant is stagnant |
| Stats.StatusOf | server/utils/areas.ts:98-145 | a status carries its area's id, name, hall and capacity and the pass's time; its count is the number of occupants, its density times capacity is that count, and its stagnation rate, flow rate and trend are those of the area's occupants and history |
| Stats.StatusFacts | server/utils/areas.ts:104-113 | density is unclamped: 0 exactly when empty, 1 exactly at capacity, above 1 exactly when overcrowded; an empty area has stagnation rate 0; the stagnation and flow rates lie in [0, 1] |
| Stats.Pushed | server/utils/areas.ts:116-119 | the new count is the last entry; below ten entries it is appended; at ten, the oldest entry is dropped as well; the length stays at most ten |
| Stats.TrendOf | server/utils/areas.ts:121-128 | with fewer than three counts the trend is stable; otherwise, with x the oldest of the last three counts and y, z the others, the trend is increasing exactly when 10(x+y+z) > 33x and decreasing exactly when 10(x+y+z) < 27x |
| Stats.SteadyCountsAreStable | server/utils/areas.ts:121-128 | three equal counts give a stable trend |
| Stats.RisingExample | server/utils/areas.ts:121-128 | counts 10, 12, 15 recorded on three passes give an increasing trend |
| Stats.FlowRate | server/utils/areas.ts:131 | the flow rate lies in [0, 1]; it is 1 exactly when the stagnation rate is at most 0.5; otherwise it is below 0.5 and adds up with the stagnation rate to 1 |
| Engine.CrowdEngine.RecordArea | server/utils/areas.ts:116-119 | one area's history gets one count pushed, no other history changes, and the status is computed from that pushed history |
| Engine.CrowdEngine.RecordAreas | server/utils/areas.ts:98-145 | over distinct catalog areas, each area's history gets its count pushed exactly once, from the history before the pass; the history of every id outside the list keeps its value; the statuses come out in list order |
| Engine.CrowdEngine.CalculateAreaStatus | server/utils/areas.ts:86-146 | cleanup first leaves exactly the survivors; then there is one status per catalog area in catalog order, each computed from the cleaned table and that area's history with this pass's count pushed once; history keys grow by exactly the catalog ids; the counts add up to the visitor total |
| Stats.CountsAddUpToVisitors | server/utils/areas.ts:98-104 | in a well-formed table the per-area counts add up to the table's size, so nobody is counted twice or missed |
| Stats.TotalCountIsCovered | server/utils/areas.ts:98-104 | for any list of distinct areas, the sum of their counts is the number of visitors in any of them |
| Engine.CrowdEngine.constructor | server/utils/areas.ts:54-55 | the engine starts with an empty table and no histories, satisfying the invariant |
| Alerts.SeverityOf | server/utils/areas.ts:155-160 | critical exactly when density > 0.9 and stagnation > 0.7; otherwise danger exactly when density > 0.85 or stagnation > 0.6; otherwise warning |
| Alerts.SeverityMonotone | server/utils/areas.ts:155-160 | higher density and higher stagnation never lower the severity |
| Alerts.NinetyPercentFullyStagnantIsDanger | server/utils/areas.ts:154-160 | density 0.9 with stagnation 1.0 raises an alert, and it is danger, not critical |
| Alerts.NinetyStuckVisitorsScenario | server/utils/areas.ts:98-113 | 90 visitors in a 100-capacity area, all in for ten minutes under the default five-minute threshold, give density 0.9 and stagnation 1.0, and their status raises a danger alert |
| Alerts.AlertOf | server/utils/areas.ts:162-170 | an alert carries its status's area id and name, and the severity the two thresholds give |
| Alerts.Candidates | server/utils/areas.ts:152-172 | never more alerts than statuses |
| Alerts.CandidatesAppend | server/utils/areas.ts:152-172 | collecting over two runs of statuses gives the first run's alerts followed by the second's, so alerts come out in status order |
| Alerts.CandidatesOfOne | server/utils/areas.ts:154-171 | one status contributes exactly its own alert, once, when congested, and nothing otherwise; with `CandidatesAppend` this fixes the order and the multiplicity of the alerts: one per congested status, in status order |
| Alerts.CandidatesExact | server/utils/areas.ts:154 | an alert is produced exactly when some status is congested (density > 0.8 and stagnation > 0.5) and the alert is that status's |
| Alerts.OfSeverity | server/utils/areas.ts:174-177 | selecting one severity yields only alerts of that severity, and no more than the input |
| Alerts.SortBySeverity | server/utils/areas.ts:174-177 | the severity order contains only alerts from its input; its sortedness, permutation and stability are the three lemmas below |
| Alerts.SortBySeveritySorted | server/utils/areas.ts:174-177 | the severity order is sorted by rank, critical 0, danger 1, warning 2 |
| Alerts.SortBySeverityPermutes | server/utils/areas.ts:174-177 | the severity order is a permutation of its input |
| Alerts.SortBySeverityStable | server/utils/areas.ts:174-177 | the severity order keeps the alerts of each severity in input order |
| Alerts.StableSortIsUnique | server/utils/areas.ts:174-177 | any list sorted by rank that keeps each severity's alerts in input order equals the severity order, so it is the stable sort's result |
| Alerts.GenerateAlerts | server/utils/areas.ts:149-178 | the loop collects exactly the candidates (one alert per congested status, in status order); the result is their severity order, sorted by rank, a permutation of them and stable within each severity, with never more alerts than statuses |
| Engine.CrowdEngine.TotalVisitors | server/utils/areas.ts:181-183 | the visitor total is the number of tracked visitors, and under the table invariant that is the number of visitors inside some catalog area; after a statistics pass it is also the sum of the per-area counts (see `CalculateAreaStatus`) |
| Types.GetDensityLevel | types/index.ts:73-78 | the level is defined for every density: low exactly below 0.5, moderate exactly on [0.5, 0.7), high exactly on [0.7, 0.85), critical exactly from 0.85 up |
| Types.DensityLevelMonotone | types/index.ts:73-78 | a larger density never yields a lower level in the order low < moderate < high < critical |
| Types.OvercapacityIsCritical | types/index.ts:77 | every density above 1, that is an overcrowded area, is critical |

## Left out

- Demo data generation and its call at module load: it draws random counts and times. The model starts from an empty table, or from any table in which every record is keyed by its own id and names a catalog area.
- The clock: every read of the current time is replaced by the `now` parameter.
- The alert fields `id`, `message`, `duration` and `timestamp`: they are presentation, built from string formatting and rounding. An alert keeps its area id, area name and severity.
- Floating point: coordinates, thresholds and ratios are exact reals. Rounding at box edges, in `first * 1.1` or in the divisions is not modelled.
- Fractional timestamps: times are whole milliseconds. Only the demo data produces fractional times.
- The HTTP handlers, which are request glue. Their truthiness check rejects a latitude or longitude of exactly 0 before the engine sees the ping. The handler for the crowd snapshot falls back to the threshold of five minutes, which is the constant `Stats.DefaultStagnationThresholdMinutes`.
- The browser composables, which cover geolocation, local storage, polling and display grouping. The Nuxt configuration is also left out.
- Concurrency: Node runs the handlers one at a time, so each operation is modelled as one atomic method.
- Engine.CrowdEngine.UpdateUserLocation: the source changes `lastUpdated` on the stored record object in place. The model replaces the map entry with an updated value. No other code holds a reference to that object, so the two behave the same.
- Alerts.GenerateAlerts: the final call to the library's in-place sort is modelled as the function `Alerts.SortBySeverity`, not as an in-place array sort. ECMAScript requires `Array.prototype.sort` to be stable, and the lemmas above prove that `SortBySeverity` is the only stable sort by rank.
