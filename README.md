# veroviz entity builders and numeric utilities

This project models two parts of the veroviz Python library, together with the proofs of their promises.

- **The entity builders.** `privCreateNodesFromLocs` turns a list of `[lat, lon(, alt)]` locations into a nodes table. `privCreateArcsFromLocSeq` turns a location sequence into an arcs table, with one arc for each pair of consecutive points.
  - Both number their new rows by continuing after an optional prior table.
  - Both apply one set of display options to every new row.
  - Both append the new rows after the prior rows.
- **The numeric utilities.**
  - Distance, time and speed conversion, each going through meters and seconds.
  - `privGetMapBoundary`, the padded latitude/longitude box around a set of nodes, arcs and locations.
  - `privInitDataframe`, which chooses an empty table schema from a case-insensitive kind token.

Tables are sequences of records (`NodeRow`, `ArcRow`). An optional input table is an `Option`. Numbers are Dafny's exact `real`s.

The modules:
- `Wrappers`: `Option` and `Result`.
- `Text`: ASCII case mapping, and the decimal rendering that `"%s" % n` performs.
- `Units`: the conversions.
- `Tables`: the records, the column lists and `InitDataframe`.
- `Boundary`: the map box.
- `Entities`: the builders.

The loops of the source stay loops:
- `CreateNodesFromLocs` and `CreateArcsFromLocSeq` append one row per iteration.
- `CollectCoordinates` appends the locations one by one.
- `GetMapBoundary` moves the four box edges step by step.

Each of these methods is proved equal to a specification function (`NodeTable`, `ArcTable`, `AllLats`/`AllLons`, `MapBoundary`). The lemmas then state what the source promises about those functions.

## Model

| member | source | states |
|---|---|---|
| Units.ConvertDistance | veroviz/_utilities.py:4-44 | A distance converts exactly when both unit tokens are recognised after lowercasing; an unknown token yields no result (the dictionary lookup fails) |
| Units.DistanceMeasure | veroviz/_utilities.py:4-44 | The result measures the same length: result × meters per target unit = input × meters per source unit |
| Units.DistanceIdentity | veroviz/_utilities.py:4-44 | Converting a distance to its own unit returns it unchanged |
| Units.DistanceRoundTrip | veroviz/_utilities.py:4-44 | Converting from A to B and back to A returns the original distance, for every pair of recognised units |
| Units.DistanceCaseInsensitive | veroviz/_utilities.py:6-11 | Upper-casing both unit tokens does not change the conversion |
| Units.ConvertTime | veroviz/_utilities.py:116-143 | A time converts exactly when both unit tokens are recognised after lowercasing |
| Units.TimeMeasure | veroviz/_utilities.py:116-143 | The result measures the same duration: result × seconds per target unit = input × seconds per source unit |
| Units.TimeIdentity | veroviz/_utilities.py:116-143 | Converting a time to its own unit returns it unchanged |
| Units.TimeRoundTrip | veroviz/_utilities.py:116-143 | Converting from A to B and back to A returns the original time, for all of s, min, h |
| Units.TimeCaseInsensitive | veroviz/_utilities.py:117-122 | Upper-casing both unit tokens does not change the conversion |
| Units.ConvertSpeed | veroviz/_utilities.py:47-113 | A speed converts exactly when all four unit tokens are recognised after lowercasing |
| Units.SpeedViaDistance | veroviz/_utilities.py:47-113 | Speed conversion is defined iff the distance conversion of its distance units is, and equals that distance conversion × seconds(to time) / seconds(from time) |
| Units.SpeedPreservesRate | veroviz/_utilities.py:47-113 | The converted speed and the original denote the same number of meters per second |
| Units.SpeedIdentity | veroviz/_utilities.py:47-113 | Converting a speed to its own units returns it unchanged |
| Units.SpeedRoundTrip | veroviz/_utilities.py:47-113 | Converting a speed from (d1, t1) to (d2, t2) and back to (d1, t1) returns the original speed, for all recognised units |
| Units.SpeedCaseInsensitive | veroviz/_utilities.py:49-54 | Upper-casing all four unit tokens does not change the conversion |
| Units.MileInKilometers | veroviz/_utilities.py:4-44 | One mile converts to exactly 1.609344 kilometers |
| Units.SixtyMilesPerHourInKilometersPerHour | veroviz/_utilities.py:47-113 | 60 mi/h converts to exactly 96.56064 km/h |
| Units.MetersPer | veroviz/_utilities.py:12-23 | Every distance factor is positive and it is 1 exactly for meters |
| Units.SecondsPer | veroviz/_utilities.py:123-128 | Every time factor is positive and it is 1 exactly for seconds |
| Units.ParseDistanceUnitIff | veroviz/_utilities.py:6-11 | A token parses to unit u exactly when its lowercase form is u's token |
| Units.ParseTimeUnitIff | veroviz/_utilities.py:117-122 | A token parses to unit u exactly when its lowercase form is u's token |
| Tables.InitDataframe | veroviz/_utilities.py:186-205 | The kind is lowercased; 'nodes', 'assignments' and 'arcs' give an empty table of that kind with its column list, and every other kind gives no table |
| Tables.InitDataframeFromToken | veroviz/_utilities.py:186-205 | Each kind's token, in lower or upper case, selects exactly that kind's empty table |
| Tables.InitNodesTable | veroviz/_utilities.py:193-195 | `'Nodes'` yields the empty table with the node columns |
| Tables.InitArcsTable | veroviz/_utilities.py:199-201 | `'Arcs'` yields the empty table with the arc columns |
| Boundary.CollectCoordinates | veroviz/_utilities.py:149-164 | The built latitude and longitude lists are the node coordinates, then the arc start and end coordinates, then the location coordinates |
| Boundary.GetMapBoundary | veroviz/_utilities.py:146-183 | The method's step-by-step edge updates produce `MapBoundary` of the collected coordinates, `[[minLat, maxLon], [maxLat, minLon]]` |
| Boundary.BoundaryDefinedIff | veroviz/_utilities.py:166-169 | A box exists exactly when the sources supply at least one coordinate (Python's `max([])` raises otherwise) |
| Boundary.BoundaryContainsAll | veroviz/_utilities.py:146-183 | Every node, arc endpoint and location coordinate lies strictly inside the box |
| Boundary.BoundaryMinimumSpan | veroviz/_utilities.py:171-181 | Each side of the box spans at least 0.0001 + 2 × 0.01 degrees |
| Boundary.AxisBoundsWidening | veroviz/_utilities.py:171-181 | A raw span below 0.0001 is widened by 0.05 and then padded by 0.01 on each side; a wider span is only padded |
| Boundary.AxisBoundsContain | veroviz/_utilities.py:166-181 | Every value on an axis lies strictly between that axis's padded bounds |
| Boundary.RepeatedPointBoundary | veroviz/_utilities.py:171-183 | Coordinates that all sit at (40, -75) give the box [[39.94, -74.94], [40.06, -75.06]] |
| Boundary.MaxOfIsMaximum | veroviz/_utilities.py:166-168 | Python's `max` of a non-empty list bounds every element and is one of them |
| Boundary.MinOfIsMinimum | veroviz/_utilities.py:167-169 | Python's `min` of a non-empty list lies below every element and is one of them |
| Text.DecimalRoundTrip | veroviz/_createEntitiesFromList.py:63 | The decimal rendering of an integer parses back to that integer |
| Text.PrefixedDecimalInjective | veroviz/_createEntitiesFromList.py:63 | A name followed by the decimal of a is the same name followed by the decimal of b exactly when a = b |
| Entities.ContinueIds | veroviz/_createEntitiesFromList.py:56-59 | The first new id is at least the requested start and above every prior id; it is the start itself or one more than some prior id |
| Entities.NodeNames | veroviz/_createEntitiesFromList.py:62-65 | The names list fails exactly when a counter must be appended to a missing name, and otherwise has one name per location |
| Entities.IncrementedNamesDistinct | veroviz/_createEntitiesFromList.py:63 | With `incrementName`, the generated names are pairwise distinct |
| Entities.NodeTable | veroviz/_createEntitiesFromList.py:53-98 | Building fails only for a missing name with `incrementName` and at least one location; otherwise the table has the prior rows plus one row per location, whether or not the locations were snapped |
| Entities.NodeTableKeepsPrior | veroviz/_createEntitiesFromList.py:94-96 | The table begins with the prior rows, unchanged and in order |
| Entities.NodeTableRows | veroviz/_createEntitiesFromList.py:77-92 | New row i has id s + i, the (snapped) coordinates of location i with altitude 0 when absent, the shared node type and style, and icon texts that are the supplied ones or else the row's id |
| Entities.NodeTableNames | veroviz/_createEntitiesFromList.py:62-65 | New row i is named base + decimal(incrementStart + i) with `incrementName`, and the base name otherwise |
| Entities.NodeTableIds | veroviz/_createEntitiesFromList.py:56-61 | The id column is the prior ids followed by the run s, s+1, …; the new ids are at least `startNode` and above every prior id, so unique prior ids stay unique |
| Entities.NodeTableNamesDistinct | veroviz/_createEntitiesFromList.py:62-63 | With `incrementName`, no two new rows share a name |
| Entities.TwoStopsExample | veroviz/_createEntitiesFromList.py:53-98 | Two locations named "stop" with `incrementName`, `incrementStart` 1 and no prior table give ids 1 and 2 and names "stop1" and "stop2" |
| Entities.CreateNodesFromLocs | veroviz/_createEntitiesFromList.py:53-98 | The method's loop over the locations builds exactly `NodeTable` |
| Entities.ArcTable | veroviz/_createEntitiesFromList.py:150-185 | The table has the prior rows plus max(N − 1, 0) arcs |
| Entities.ArcTableKeepsPrior | veroviz/_createEntitiesFromList.py:181-183 | The table begins with the prior rows, unchanged and in order |
| Entities.ArcTableRows | veroviz/_createEntitiesFromList.py:163-179 | New arc i has odID a + i, starts at point i and ends at point i + 1, and carries the shared style and `useArrows` |
| Entities.ArcTablePath | veroviz/_createEntitiesFromList.py:163-169 | Each new arc ends where the next one starts |
| Entities.ArcTableIds | veroviz/_createEntitiesFromList.py:153-157 | The odID column is the prior odIDs followed by the run a, a+1, …; the new odIDs are at least `startArc` and above every prior odID, so unique prior odIDs stay unique |
| Entities.CreateArcsFromLocSeq | veroviz/_createEntitiesFromList.py:150-185 | The method's loop over consecutive pairs builds exactly `ArcTable` |

## Left out

- `privExportDataframe` writes files and prints messages. It is not part of this model.
- Road snapping (`privGetSnapLocBatch`) calls an external data provider. The model takes its result as the parameter `snapped`, which must have as many locations as `locs`. Coincident snapped points are kept as they are, like the source does.
- The pandas DataFrame operations (`append`, `concat`, `tolist`, the DataFrame type test) become sequence operations on records and `Option`. Column dtypes are not modelled.
- IEEE floating point. Conversions and box arithmetic are exact over `real`, so the identities hold exactly. The source's float results can differ from them in the last digits.
- The unit constants and `distanceUnitsDictionary` / `timeUnitsDictionary` live in `veroviz/_common.py`, which is not part of this model.
  - The constants take their standard definitions: 1000 m per km, 1609.344 m per mile, 0.3048 m per foot, 0.9144 m per yard, 1852 m per nautical mile, 60 s per minute and 3600 s per hour.
  - Only the canonical tokens `m`, `km`, `mi`, `ft`, `yard`, `nmi`, `s`, `min` and `h` are recognised. The dictionaries' aliases are not.
- Lowercasing covers ASCII letters only. A non-string token, whose `.lower()` the source skips, does not arise because tokens are strings.
- `nodesColumnList`, `arcsColumnList` and `assignmentsColumnList` live in `veroviz/_common.py`, outside `_createEntitiesFromList.py` and `_utilities.py`. `InitDataframe` takes the assignments list as a parameter. The node and arc lists follow the documented Nodes and Arcs table schemas.
- `locs2Dict` is not part of this model. A location without an altitude gets altitude 0.
- The default style constants (`VRV_DEFAULT_…`) are not modelled. The style is always passed in.
- Entities.NodeNames: a `None` name with `incrementName` raises a TypeError in Python. Here it is the error value `Failure(NameNotText)`. Python builds a name for every location, so zero locations do not fail.
- Boundary.GetMapBoundary: an input with no coordinate makes Python's `max([])` raise. Here it returns `None`.
- Units.ConvertDistance, Units.ConvertTime, Units.ConvertSpeed: their own contracts state only when a result exists. The values they compute are stated by `DistanceMeasure`, `TimeMeasure`, `SpeedViaDistance`, `SpeedPreservesRate` and the identity and round-trip lemmas.
- The arc builder computes N odIDs when only N − 1 arcs are built. The model computes the last odID as well, and nothing reads it.
