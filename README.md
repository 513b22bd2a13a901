# STM bus map — a Dafny model of its data core

This project models the data core of an Android map app for the bus network of the STM (Société de transport de Montréal), along with the two offline scripts that prepare the app's schedule files.

## What is modelled

The app (MyMapApp):

- **`StmRepository`** (`repository.dfy`). Write-once caches of the decoded static files. It merges route metadata with route paths, maps raw stops to `BusStop`s, and resolves "related" stops by name. Names are compared lower-cased; a name of the form "a / b" is also matched as "b / a".
- **`MainViewModel`** (`view_model.dfy`). The live-feed activity filter applied on every poll. It uses:
  - a service day that ends at 04:00;
  - a start date that must match the service date;
  - a 10-minute head start before a trip's first departure;
  - fail-open handling when dates or times cannot be parsed.

  It also holds the stop-schedule engine: deduplication by "route-time-headsign", the upcoming-time filter (with the 20:00 rule for early-morning trips), the sorted distinct directions, the direction selection, and the first 20 published rows.
- **`ScheduleAdapter`** (`schedule_adapter.dfy`). How a GTFS time is shown as "HH:mm", and the identity rules the list differ uses.
- **`SearchDialogFragment`** (`search_dialog.dfy`). The route search: a case-insensitive match on the route name or a match on the route id. Results are sorted by numeric id with 32-bit subtraction, falling back to name order.
- **`MapManager`** (`map_manager.dfy`). Which buses and stops are shown, the colour each route is drawn in (number bands, a purple exception list, the route's own colour, fallbacks), and the layer ids of the routes.

The scripts (RSC):

- **`generate_trip_times.py`** (`trip_times_generator.dfy`). The first departure and last arrival of each trip, compared as strings against the sentinels "99:99:99" and "00:00:00".
- **`generate_stop_times.py`** (`stop_times_generator.dfy`). It joins `stop_times.txt` with `trips.txt`, groups the passages by stop, and sorts each stop's list stably by time.

Supporting modules:

- `wrappers.dfy`: `Option`.
- `ints.dfy`: Kotlin's 32-bit `Int` and its wrap-around.
- `strings.dfy`: the Kotlin and Python string operations the core relies on: `split`, `toIntOrNull`, `trim`, `lowercase`, `contains`, `startsWith`, `compareTo` as lexicographic order, two-digit formatting.
- `seqs.dfy`: `filter`, `map`, `take`, `distinctBy`, and a stable insertion sort standing in for `sortedWith` and `list.sort`.
- `linked_maps.dfy`: insertion-ordered maps (`LinkedHashMap`, `dict`).
- `models.dfy`: the records of `Models.kt`.
- `gtfs_realtime.dfy`: the GTFS Realtime feed messages.
- `gtfs_static.dfy`: the GTFS Schedule rows.

### How state is modelled

- Classes whose fields the Kotlin code reassigns are Dafny classes with `modifies` frames: `StmRepository`, `MainViewModel`, `MapManager`, `SearchAdapter` and `SearchDialogFragment`.
- Each loop of the source becomes a method proved against a specification function:
  - the merge loop of `getRoutes`;
  - the bus loop of `updateBuses`;
  - the four loops of the Python scripts: the reader of `generate_trip_times`, the two readers of `generate_schedules`, and its sort-and-write loop.
- Fetching, JSON and protobuf decoding, the clock and the date are inputs:
  - a decoded file is an `Option` that is `None` when fetching or decoding throws;
  - `now` is a time of day;
  - a date is a day number;
  - `parseDate` stands for `LocalDate.parse` with the `yyyyMMdd` pattern.

## Model

| member | source | states |
|---|---|---|
| Ints.WrapInt32 | MyMapApp/app/src/main/java/com/example/mapapp/viewmodel/MainViewModel.kt:100 | a Kotlin `Int` result lies in the 32-bit range, agrees with the exact value modulo 2^32, and equals it when no overflow happens |
| GtfsRealtime.TripOf | MyMapApp/app/src/main/java/com/example/mapapp/ui/MapManager.kt:343-351 | `vehicle.trip` is the trip when one is set, and otherwise the default message with empty trip and route ids |
| LinkedMaps.Get | MyMapApp/app/src/main/java/com/example/mapapp/data/StmRepository.kt:115 | a lookup finds a value exactly for a present key, and that value is the one stored |
| LinkedMaps.Put | MyMapApp/app/src/main/java/com/example/mapapp/data/StmRepository.kt:127 | storing a value maps the key to it; a new key goes to the end of the key order and an existing key keeps its place |
| LinkedMaps.Values | MyMapApp/app/src/main/java/com/example/mapapp/data/StmRepository.kt:222 | `values` lists one value per key, in key order |
| LinkedMaps.MapValues | MyMapApp/app/src/main/java/com/example/mapapp/data/StmRepository.kt:154-156 | `mapValues` keeps the keys and their order and transforms each value |
| LinkedMaps.FilterKeys | MyMapApp/app/src/main/java/com/example/mapapp/ui/MapManager.kt:321 | `filterKeys` keeps, in order, exactly the keys that pass, with their values unchanged |
| Repository.ToPoint | MyMapApp/app/src/main/java/com/example/mapapp/data/StmRepository.kt:121 | a point is its first two numbers, or (0.0, 0.0) when it has fewer than two |
| Repository.MergeRoute | MyMapApp/app/src/main/java/com/example/mapapp/data/StmRepository.kt:115-134 | a merged route has the metadata's name, colour and direction destinations (same keys); its stop ids and path geometry come from its path entry, point by point, and are empty when the entry is missing |
| Repository.MergeRoutes | MyMapApp/app/src/main/java/com/example/mapapp/data/StmRepository.kt:113-135 | the loop yields one merged route per metadata entry, in metadata order, and nothing else |
| Repository.ToBusStops | MyMapApp/app/src/main/java/com/example/mapapp/data/StmRepository.kt:154-156 | every raw stop becomes a `BusStop` carrying its own key as id and its name; same keys in the same order |
| Repository.SwappedTarget | MyMapApp/app/src/main/java/com/example/mapapp/data/StmRepository.kt:215-220 | the lower-cased name with its two " / " parts swapped, when it has exactly two; used through Repository.SwappedNameFound |
| Repository.NameMatches | MyMapApp/app/src/main/java/com/example/mapapp/data/StmRepository.kt:222-224 | a stop matches when its lower-cased name equals the lower-cased query or its swapped form; stated by Repository.OwnNameFound, Repository.SwappedNameFound and Repository.NoSeparatorExactOnly |
| Repository.RelatedStops | MyMapApp/app/src/main/java/com/example/mapapp/data/StmRepository.kt:212-225 | the related stops are an order-preserving selection of exactly the stops whose name matches, directly or swapped around " / " |
| Repository.RelatedStopsCounts | MyMapApp/app/src/main/java/com/example/mapapp/data/StmRepository.kt:222-225 | every copy of a matching stop is kept, and no copy of any other |
| Repository.OwnNameFound | MyMapApp/app/src/main/java/com/example/mapapp/data/StmRepository.kt:222-225 | looking up a stop's own name always finds that stop |
| Repository.SwappedNameFound | MyMapApp/app/src/main/java/com/example/mapapp/data/StmRepository.kt:215-220 | a stop named "x / y" matches the query "y / x", regardless of letter case |
| Repository.NoSeparatorExactOnly | MyMapApp/app/src/main/java/com/example/mapapp/data/StmRepository.kt:212-224 | for a query without '/', a name matches if and only if it equals the query ignoring case |
| Repository.StmRepository.constructor | MyMapApp/app/src/main/java/com/example/mapapp/data/StmRepository.kt:34-37 | all four caches start empty |
| Repository.StmRepository.GetTripHeadsigns | MyMapApp/app/src/main/java/com/example/mapapp/data/StmRepository.kt:77-92 | a filled cache is returned and never replaced; otherwise a decoded file fills it; a failure leaves it empty and returns an empty map |
| Repository.StmRepository.GetRoutes | MyMapApp/app/src/main/java/com/example/mapapp/data/StmRepository.kt:94-143 | a filled cache is kept; otherwise, when both files decode, the cache becomes their merge; if either fails, the cache stays empty and the result is empty |
| Repository.StmRepository.GetStops | MyMapApp/app/src/main/java/com/example/mapapp/data/StmRepository.kt:145-164 | a filled cache is kept; otherwise the cache becomes the mapped stops, or stays empty on failure; the result is the cache or an empty map |
| Repository.StmRepository.GetTripTimes | MyMapApp/app/src/main/java/com/example/mapapp/data/StmRepository.kt:228-243 | the same write-once caching for the trip times |
| Repository.StmRepository.GetRelatedStops | MyMapApp/app/src/main/java/com/example/mapapp/data/StmRepository.kt:209-226 | loads the stops when they are not cached; the result is the matching stops of the cache in cache order, or empty when no stops could be loaded |
| ScheduleAdapter.FormatGtfsTime | MyMapApp/app/src/main/java/com/example/mapapp/ui/ScheduleAdapter.kt:35-51 | a time that does not split into at least two fields is shown unchanged |
| ScheduleAdapter.FormatWithoutColon | MyMapApp/app/src/main/java/com/example/mapapp/ui/ScheduleAdapter.kt:37-38 | a time with no ':' is shown unchanged |
| ScheduleAdapter.FirstTwoFields | MyMapApp/app/src/main/java/com/example/mapapp/ui/ScheduleAdapter.kt:37-40 | "hh:mm…" splits so that the hour field is `hh` and the minute field is `mm` |
| ScheduleAdapter.FormatDigitHour | MyMapApp/app/src/main/java/com/example/mapapp/ui/ScheduleAdapter.kt:39-48 | a numeric hour `v` is shown as the two digits of `v`, or of `v - 24` when `v >= 24`, followed by ':' and the minutes; anything after the minutes is dropped |
| ScheduleAdapter.FormatNonNumericHour | MyMapApp/app/src/main/java/com/example/mapapp/ui/ScheduleAdapter.kt:39 | an hour that is not an `Int` is shown as "00" |
| ScheduleAdapter.AreItemsTheSame | MyMapApp/app/src/main/java/com/example/mapapp/ui/ScheduleAdapter.kt:55-58 | the same item when route and time agree; stated by ScheduleAdapter.ItemsTheSameEquivalence and ScheduleAdapter.HeadsignAndServiceIgnored |
| ScheduleAdapter.AreContentsTheSame | MyMapApp/app/src/main/java/com/example/mapapp/ui/ScheduleAdapter.kt:60-62 | the same contents when every field agrees; stated by ScheduleAdapter.ContentsSameIsItemsSame |
| ScheduleAdapter.ContentsSameIsItemsSame | MyMapApp/app/src/main/java/com/example/mapapp/ui/ScheduleAdapter.kt:55-62 | rows with equal contents are always the same item, which the differ's contract requires |
| ScheduleAdapter.HeadsignAndServiceIgnored | MyMapApp/app/src/main/java/com/example/mapapp/ui/ScheduleAdapter.kt:55-62 | a change of headsign or service id keeps the item's identity but changes its contents |
| ScheduleAdapter.ItemsTheSameEquivalence | MyMapApp/app/src/main/java/com/example/mapapp/ui/ScheduleAdapter.kt:55-58 | item identity is reflexive, symmetric and transitive |
| SearchDialog.RouteMatches | MyMapApp/app/src/main/java/com/example/mapapp/ui/SearchDialogFragment.kt:92 | a route matches when its name contains the query ignoring case or its id contains it; the rule is stated through SearchDialog.SelectedRoutes |
| SearchDialog.CompareNames | MyMapApp/app/src/main/java/com/example/mapapp/ui/SearchDialogFragment.kt:97 | the sign of `compareTo`: negative exactly when the first name sorts first, zero exactly when the names are equal |
| SearchDialog.CompareRoutes | MyMapApp/app/src/main/java/com/example/mapapp/ui/SearchDialogFragment.kt:94-98 | the comparator: the wrapped `Int` difference of two numeric ids, otherwise the name comparison; its behaviour is stated by SearchDialog.NumericIdsCompare, SearchDialog.MixedIdsCycle and SearchDialog.SubtractionWraps |
| SearchDialog.SelectedRoutes | MyMapApp/app/src/main/java/com/example/mapapp/ui/SearchDialogFragment.kt:88-93 | no query or a blank query keeps every route; otherwise exactly the routes whose name contains the query (ignoring case) or whose id contains it, in their given order |
| SearchDialog.FilteredRoutes | MyMapApp/app/src/main/java/com/example/mapapp/ui/SearchDialogFragment.kt:87-98 | the submitted list is a permutation of the selected routes |
| SearchDialog.FilteredRoutesMembers | MyMapApp/app/src/main/java/com/example/mapapp/ui/SearchDialogFragment.kt:88-98 | a route is listed if and only if it is one of the routes and the query is absent, blank or matched; with no query, the list is a permutation of all routes |
| SearchDialog.NumericIdsCompare | MyMapApp/app/src/main/java/com/example/mapapp/ui/SearchDialogFragment.kt:95-97 | between non-negative `Int` ids the subtraction cannot wrap, so the comparator orders by id value |
| SearchDialog.NumericIdsStrictOrder | MyMapApp/app/src/main/java/com/example/mapapp/ui/SearchDialogFragment.kt:94-98 | on routes with non-negative `Int` ids the comparator is a strict order |
| SearchDialog.SortedByNumericId | MyMapApp/app/src/main/java/com/example/mapapp/ui/SearchDialogFragment.kt:94-98 | when every id is a non-negative `Int`, the list comes out in non-decreasing id order, and routes with the same id value keep their relative order |
| SearchDialog.SortedByName | MyMapApp/app/src/main/java/com/example/mapapp/ui/SearchDialogFragment.kt:94-98 | when no id is an `Int`, the list comes out in name order, and routes with the same name keep their relative order |
| SearchDialog.MixedIdsCycle | MyMapApp/app/src/main/java/com/example/mapapp/ui/SearchDialogFragment.kt:95-97 | with numeric and non-numeric ids mixed, the comparator has a cycle, so it is not an order |
| SearchDialog.SubtractionWraps | MyMapApp/app/src/main/java/com/example/mapapp/ui/SearchDialogFragment.kt:97 | `idA - idB` overflows: an id of `Int.MAX_VALUE` is placed before an id of -1 |
| SearchDialog.SearchAdapter.constructor | MyMapApp/app/src/main/java/com/example/mapapp/ui/SearchDialogFragment.kt:104 | the adapter starts with no items |
| SearchDialog.SearchAdapter.SubmitList | MyMapApp/app/src/main/java/com/example/mapapp/ui/SearchDialogFragment.kt:106-109 | the new list replaces the old one |
| SearchDialog.SearchAdapter.GetItemCount | MyMapApp/app/src/main/java/com/example/mapapp/ui/SearchDialogFragment.kt:124 | one row per item |
| SearchDialog.SearchDialogFragment.constructor | MyMapApp/app/src/main/java/com/example/mapapp/ui/SearchDialogFragment.kt:75 | once the view is created, the adapter shows the sorted list for the empty query |
| SearchDialog.SearchDialogFragment.FilterRoutes | MyMapApp/app/src/main/java/com/example/mapapp/ui/SearchDialogFragment.kt:87-100 | the adapter shows the sorted selection, with one row per selected route |
| SearchDialog.SearchDialogFragment.OnQueryTextChange | MyMapApp/app/src/main/java/com/example/mapapp/ui/SearchDialogFragment.kt:62-65 | every edit of the query is handled and refilters the list |
| MapLayers.ParseColor | MyMapApp/app/src/main/java/com/example/mapapp/ui/MapManager.kt:410-424 | `parseColor` accepts a colour exactly when, once trimmed and stripped of one leading '#', it is six hex digits, and then yields '#' followed by those digits; everything else falls back to gray |
| MapLayers.OwnColor | MyMapApp/app/src/main/java/com/example/mapapp/ui/MapManager.kt:446-456 | a route's own colour, trimmed and stripped of one leading '#', is kept when it is six hex digits and becomes "#FF0000" otherwise; the result is always '#' plus six hex digits |
| MapLayers.ColorForRouteHex | MyMapApp/app/src/main/java/com/example/mapapp/ui/MapManager.kt:426-459 | every assigned colour is '#' followed by six hex digits; the rule for each case is stated by UnknownRouteGreen, BandColors, PurpleExactly, OtherRoutesOwnColor and BadOwnColorRed |
| MapLayers.ColorForCleanId | MyMapApp/app/src/main/java/com/example/mapapp/ui/MapManager.kt:428-458 | the colour rules, applied to an id that is already trimmed, always give '#' followed by six hex digits |
| MapLayers.UnknownRouteGreen | MyMapApp/app/src/main/java/com/example/mapapp/ui/MapManager.kt:427-432 | an id that, once trimmed, is not a known route is drawn "#00FF00" |
| MapLayers.BandColors | MyMapApp/app/src/main/java/com/example/mapapp/ui/MapManager.kt:434-445 | known routes numbered 10–249 are "#0000FF", 250–299 "#FFD700", 300–399 "#000000", and 400–499 other than 406, 439 and 470 "#00FF00" |
| MapLayers.BadOwnColorRed | MyMapApp/app/src/main/java/com/example/mapapp/ui/MapManager.kt:446-456 | a known route outside the bands whose own colour is not six hex digits is drawn "#FF0000" |
| MapLayers.ParseHexColor | MyMapApp/app/src/main/java/com/example/mapapp/ui/MapManager.kt:410-420 | every colour of the form '#' plus six hex digits passes `parseColor` unchanged |
| MapLayers.AssignedColorParses | MyMapApp/app/src/main/java/com/example/mapapp/ui/MapManager.kt:305 | no route line falls back to gray: `parseColor` accepts every colour `getColorForRouteHex` assigns |
| MapLayers.TrimmedIdSameColor | MyMapApp/app/src/main/java/com/example/mapapp/ui/MapManager.kt:427 | whitespace around the route id does not change the colour |
| MapLayers.BandIgnoresOwnColor | MyMapApp/app/src/main/java/com/example/mapapp/ui/MapManager.kt:436-445 | a known route numbered 10 to 499 gets its band colour, whatever its own colour field holds |
| MapLayers.PurpleExactly | MyMapApp/app/src/main/java/com/example/mapapp/ui/MapManager.kt:440-444 | among known routes numbered 400 to 499, exactly 406, 439 and 470 are purple |
| MapLayers.OtherRoutesOwnColor | MyMapApp/app/src/main/java/com/example/mapapp/ui/MapManager.kt:446-456 | a known route outside the bands, or without a numeric id, is drawn in its own colour |
| MapLayers.OwnColorKept | MyMapApp/app/src/main/java/com/example/mapapp/ui/MapManager.kt:447-452 | a six-digit colour is kept, with or without its '#' |
| MapLayers.SelectedStops | MyMapApp/app/src/main/java/com/example/mapapp/ui/MapManager.kt:320-324 | no filter shows every stop; a filter shows, in map order, exactly the stops whose id it holds, with their data unchanged |
| MapLayers.StopFeatures | MyMapApp/app/src/main/java/com/example/mapapp/ui/MapManager.kt:326-331 | one feature per stop, in map order, carrying the map key as `stopId` and the stop's name |
| MapLayers.ShowsBus | MyMapApp/app/src/main/java/com/example/mapapp/ui/MapManager.kt:340-345 | an entity is shown when it has a vehicle and the filter is empty or holds its route; stated by MapLayers.ShownVehiclesAreSelected and MapLayers.NoFilterShowsAllVehicles |
| MapLayers.BusFeatureOf | MyMapApp/app/src/main/java/com/example/mapapp/ui/MapManager.kt:346-363 | the feature of one vehicle: position, ids, the headsign or "", the direction when set, the route colour and the bearing; stated by MapLayers.BusFeaturesFiltered |
| MapLayers.BusFeatures | MyMapApp/app/src/main/java/com/example/mapapp/ui/MapManager.kt:340-365 | the features of the shown vehicles in feed order; stated by MapLayers.BusFeaturesSnoc and MapLayers.MapManager.UpdateBuses |
| MapLayers.BusFeaturesSnoc | MyMapApp/app/src/main/java/com/example/mapapp/ui/MapManager.kt:340-367 | one more entity adds its feature exactly when it passes the selection |
| MapLayers.ShownVehiclesAreSelected | MyMapApp/app/src/main/java/com/example/mapapp/ui/MapManager.kt:340-345 | the shown vehicles are, one each and in feed order, those of the entities the selection keeps |
| MapLayers.BusFeaturesFiltered | MyMapApp/app/src/main/java/com/example/mapapp/ui/MapManager.kt:345-361 | with a non-empty filter, every bus shown is on a filtered route; a trip without a known headsign shows ""; every bus colour is a valid hex colour |
| MapLayers.NoFilterShowsAllVehicles | MyMapApp/app/src/main/java/com/example/mapapp/ui/MapManager.kt:341-345 | with no filter, every entity that has a vehicle is shown |
| MapLayers.LayerId | MyMapApp/app/src/main/java/com/example/mapapp/ui/MapManager.kt:461 | the layer id "route-<id>-layer" of a route; stated by MapLayers.LayerIdInjective and MapLayers.MapManager.GetAllRouteLayerIds |
| MapLayers.LayerIdInjective | MyMapApp/app/src/main/java/com/example/mapapp/ui/MapManager.kt:461 | different routes get different layer ids |
| MapLayers.MapManager.constructor | MyMapApp/app/src/main/java/com/example/mapapp/ui/MapManager.kt:64 | no routes are known at first |
| MapLayers.MapManager.UpdateRoutes | MyMapApp/app/src/main/java/com/example/mapapp/ui/MapManager.kt:290-291 | the given routes become the ones that colours are taken from |
| MapLayers.MapManager.UpdateStops | MyMapApp/app/src/main/java/com/example/mapapp/ui/MapManager.kt:319-333 | the stop source holds the features of the selected stops |
| MapLayers.MapManager.UpdateBuses | MyMapApp/app/src/main/java/com/example/mapapp/ui/MapManager.kt:335-372 | a missing feed changes nothing; otherwise the loop leaves in the bus source exactly the features of the shown vehicles, in feed order |
| MapLayers.MapManager.GetAllRouteLayerIds | MyMapApp/app/src/main/java/com/example/mapapp/ui/MapManager.kt:460-462 | one layer id per route, in route order, with no repeats |
| ViewModel.SecondOfDay | MyMapApp/app/src/main/java/com/example/mapapp/viewmodel/MainViewModel.kt:147 | the second of the day lies below 86400, and its hour, minute and second components are those of the clock |
| ViewModel.GtfsTimeToSeconds | MyMapApp/app/src/main/java/com/example/mapapp/viewmodel/MainViewModel.kt:94-104 | the result is an `Int`; it is -1 when the time has no ':', splits into fewer than three fields, or has a first, second or third field that is not an `Int` |
| ViewModel.GtfsTimeToSecondsOfDigits | MyMapApp/app/src/main/java/com/example/mapapp/viewmodel/MainViewModel.kt:94-104 | "h:m:s" with digit fields converts to h*3600 + m*60 + s, including hours of 24 and more |
| ViewModel.GtfsTimeOfClockString | MyMapApp/app/src/main/java/com/example/mapapp/viewmodel/MainViewModel.kt:94-104 | an "HH:MM:SS" string converts to the seconds it denotes |
| ViewModel.ServiceDate | MyMapApp/app/src/main/java/com/example/mapapp/viewmodel/MainViewModel.kt:121-122 | the service date is the day before exactly when the hour is before the 04:00 cutoff, and today otherwise |
| ViewModel.NowInServiceSeconds | MyMapApp/app/src/main/java/com/example/mapapp/viewmodel/MainViewModel.kt:147-150 | the poll's "now" equals the second of the day modulo 86400; it lies past 24:00:00 exactly before the cutoff, and below 28:00:00 |
| ViewModel.WithoutStartDate | MyMapApp/app/src/main/java/com/example/mapapp/viewmodel/MainViewModel.kt:130 | removing the start date keeps the entity id, the vehicle, its position and every other trip field, and leaves the trip without a start date |
| ViewModel.IsActive | MyMapApp/app/src/main/java/com/example/mapapp/viewmodel/MainViewModel.kt:124-158 | the per-entity test of the live feed: a vehicle with a trip, a start date that is absent, unparseable or the service date, and no schedule, a bad schedule, or a time window holding now; stated by ViewModel.ActiveHasTrip, ViewModel.OtherServiceDateHidden, ViewModel.UnparseableStartDateIgnored, ViewModel.MissingScheduleShown and ViewModel.ActiveWindowSeconds |
| ViewModel.ActiveHasTrip | MyMapApp/app/src/main/java/com/example/mapapp/viewmodel/MainViewModel.kt:125 | only vehicles that are on a trip are ever shown |
| ViewModel.OtherServiceDateHidden | MyMapApp/app/src/main/java/com/example/mapapp/viewmodel/MainViewModel.kt:130-135 | a start date that parses to another day hides the vehicle, whatever its schedule |
| ViewModel.UnparseableStartDateIgnored | MyMapApp/app/src/main/java/com/example/mapapp/viewmodel/MainViewModel.kt:130-135 | a start date that does not parse is treated as no start date |
| ViewModel.MissingScheduleShown | MyMapApp/app/src/main/java/com/example/mapapp/viewmodel/MainViewModel.kt:138-144 | a trip with no schedule, or whose start or end time does not convert (gives -1), is shown |
| ViewModel.ActiveWindowSeconds | MyMapApp/app/src/main/java/com/example/mapapp/viewmodel/MainViewModel.kt:138-158 | a trip on the service day whose times convert is shown exactly from ten minutes before its start up to, but not including, its end |
| ViewModel.ActiveWindowExample | MyMapApp/app/src/main/java/com/example/mapapp/viewmodel/MainViewModel.kt:152-158 | a 08:00–09:00 trip is shown at 07:51:00 and hidden at 09:00:01 |
| ViewModel.ActiveEntities | MyMapApp/app/src/main/java/com/example/mapapp/viewmodel/MainViewModel.kt:124-159 | a poll keeps, in feed order, exactly the active entities |
| ViewModel.ActiveEntitiesCounts | MyMapApp/app/src/main/java/com/example/mapapp/viewmodel/MainViewModel.kt:124-159 | a poll keeps every copy of an active entity, and no copy of any other |
| ViewModel.DedupKey | MyMapApp/app/src/main/java/com/example/mapapp/viewmodel/MainViewModel.kt:200 | the `distinctBy` key "routeId-time-headsign"; stated by ViewModel.DedupKeyInjective and ViewModel.DedupKeyCollision |
| ViewModel.DedupKeyInjective | MyMapApp/app/src/main/java/com/example/mapapp/viewmodel/MainViewModel.kt:200 | when route ids and times contain no '-', equal keys mean equal route, time and headsign |
| ViewModel.DedupKeyCollision | MyMapApp/app/src/main/java/com/example/mapapp/viewmodel/MainViewModel.kt:200 | two different rows ("1-2", "3") and ("1", "2-3") share a key, so the second is dropped |
| ViewModel.NowString | MyMapApp/app/src/main/java/com/example/mapapp/viewmodel/MainViewModel.kt:196 | the current time as "HH:mm:ss"; its value is pinned by ViewModel.ClockString and ViewModel.GtfsTimeOfClockString |
| ViewModel.ClockString | MyMapApp/app/src/main/java/com/example/mapapp/viewmodel/MainViewModel.kt:196 | "HH:mm:ss" is eight characters long |
| ViewModel.IsEarlySchedule | MyMapApp/app/src/main/java/com/example/mapapp/viewmodel/MainViewModel.kt:205 | a time starting with "00:", "01:", "02:" or "03:"; stated by ViewModel.ClockStringEarly |
| ViewModel.IsUpcoming | MyMapApp/app/src/main/java/com/example/mapapp/viewmodel/MainViewModel.kt:201-213 | the late-night rule or a time not before now; stated by ViewModel.UpcomingClockTime and ViewModel.UpcomingExample |
| ViewModel.UpcomingSchedule | MyMapApp/app/src/main/java/com/example/mapapp/viewmodel/MainViewModel.kt:199-214 | the cache is an order-preserving selection of upcoming fetched rows with no two rows sharing a key |
| ViewModel.ClockStringOrder | MyMapApp/app/src/main/java/com/example/mapapp/viewmodel/MainViewModel.kt:212 | two-digit clock strings compare as the times they denote |
| ViewModel.ClockStringEarly | MyMapApp/app/src/main/java/com/example/mapapp/viewmodel/MainViewModel.kt:205 | a clock string starts with "00:" to "03:" exactly when its hour is below 4 |
| ViewModel.UpcomingClockTime | MyMapApp/app/src/main/java/com/example/mapapp/viewmodel/MainViewModel.kt:201-214 | for "HH:MM:SS" rows, a row is kept exactly when it is not before now, or when it falls in the first four hours and it is 20:00 or later |
| ViewModel.UpcomingExample | MyMapApp/app/src/main/java/com/example/mapapp/viewmodel/MainViewModel.kt:204-212 | a 00:15:00 row is hidden at 14:00:00 and shown at 21:00:00 |
| ViewModel.UpcomingScheduleComplete | MyMapApp/app/src/main/java/com/example/mapapp/viewmodel/MainViewModel.kt:199-214 | when keys cannot collide, every upcoming fetched row is represented in the cache by a row with the same route, time and headsign |
| ViewModel.UpcomingKeepsFirst | MyMapApp/app/src/main/java/com/example/mapapp/viewmodel/MainViewModel.kt:199-214 | a row is in the cache exactly when it is upcoming and it is the first fetched row with its "route-time-headsign" key; a later row with the same key but another service id never replaces it |
| ViewModel.Headsigns | MyMapApp/app/src/main/java/com/example/mapapp/viewmodel/MainViewModel.kt:217 | the headsigns of the rows, one per row in row order |
| ViewModel.Directions | MyMapApp/app/src/main/java/com/example/mapapp/viewmodel/MainViewModel.kt:217 | the distinct headsigns in sorted order; stated by ViewModel.DirectionsSortedDistinct |
| ViewModel.DirectionsSortedDistinct | MyMapApp/app/src/main/java/com/example/mapapp/viewmodel/MainViewModel.kt:217 | the directions are strictly increasing (so each appears once) and are exactly the headsigns of the cache |
| ViewModel.RowsOfDirection | MyMapApp/app/src/main/java/com/example/mapapp/viewmodel/MainViewModel.kt:231-235 | with no selection, every row; otherwise, in order, exactly the rows of the selected headsign |
| ViewModel.RowsOfDirectionCounts | MyMapApp/app/src/main/java/com/example/mapapp/viewmodel/MainViewModel.kt:231-235 | the rows of a direction keep every copy of a row of that direction and none of the others |
| ViewModel.PublishedSchedule | MyMapApp/app/src/main/java/com/example/mapapp/viewmodel/MainViewModel.kt:236 | at most 20 rows, a prefix of the selected rows, and all of them when there are fewer than 20 |
| ViewModel.PublishedRowsOfDirection | MyMapApp/app/src/main/java/com/example/mapapp/viewmodel/MainViewModel.kt:231-236 | every published row comes from the cache and belongs to the selected direction, and that direction is one of the available ones |
| ViewModel.SortedById | MyMapApp/app/src/main/java/com/example/mapapp/viewmodel/MainViewModel.kt:188 | the sibling stops come out in non-decreasing id order, and stops with equal ids keep their order |
| ViewModel.MainViewModel.constructor | MyMapApp/app/src/main/java/com/example/mapapp/viewmodel/MainViewModel.kt:29-62 | every state starts empty, the schedule invariant holds, and polling has started |
| ViewModel.MainViewModel.LoadStaticData | MyMapApp/app/src/main/java/com/example/mapapp/viewmodel/MainViewModel.kt:64-92 | routes, stops, trip times and headsigns become what the repository's caches hold after loading; each filled cache is kept; an empty cache becomes the merge of the route files, the mapped stops, the trip times or the headsigns when its files decode, and stays empty otherwise |
| ViewModel.MainViewModel.StartBusPolling | MyMapApp/app/src/main/java/com/example/mapapp/viewmodel/MainViewModel.kt:106-108 | polling starts at most once; a second call does nothing |
| ViewModel.MainViewModel.PollCycle | MyMapApp/app/src/main/java/com/example/mapapp/viewmodel/MainViewModel.kt:116-165 | a fetched feed is published with its active entities only, keeping its header; a failed fetch leaves the published feed unchanged |
| ViewModel.MainViewModel.UpdateFilter | MyMapApp/app/src/main/java/com/example/mapapp/viewmodel/MainViewModel.kt:171-174 | the filter becomes the given route ids |
| ViewModel.MainViewModel.LoadStopSchedule | MyMapApp/app/src/main/java/com/example/mapapp/viewmodel/MainViewModel.kt:176-223 | resets the selection; the cache becomes the upcoming deduplicated rows; the directions and the first 20 rows follow from it; for a known stop the sibling stops are set and an empty stop cache is loaded, while an unknown stop leaves the stop cache as it was; the schedule invariant holds afterwards |
| ViewModel.MainViewModel.SiblingsOf | MyMapApp/app/src/main/java/com/example/mapapp/viewmodel/MainViewModel.kt:187-188 | the siblings are a reordering of the related stops in the cache, or none without a cache |
| ViewModel.MainViewModel.LoadRelatedStops | MyMapApp/app/src/main/java/com/example/mapapp/viewmodel/MainViewModel.kt:185-189 | for a known stop the stop cache is loaded when empty and the siblings sorted by id are published; an unknown stop leaves the sibling list and the stop cache unchanged; a filled stop cache is kept |
| ViewModel.MainViewModel.FilterScheduleByDirection | MyMapApp/app/src/main/java/com/example/mapapp/viewmodel/MainViewModel.kt:225-228 | the selection changes and the published rows follow it; the schedule invariant is kept |
| ViewModel.MainViewModel.ApplyScheduleFilter | MyMapApp/app/src/main/java/com/example/mapapp/viewmodel/MainViewModel.kt:230-237 | the published rows become the first 20 rows of the selection, re-establishing the schedule invariant |
| TripTimesGenerator.AddRow | RSC/generate_trip_times.py:20-30 | one row lowers the trip's start to its departure and raises its end to its arrival; stated by TripTimesGenerator.BoundsStep and TripTimesGenerator.RowSets |
| TripTimesGenerator.TripTimesOf | RSC/generate_trip_times.py:19-30 | the dictionary after all rows in order; stated by TripTimesGenerator.TripTimesKeys, TripTimesGenerator.TripTimesBounds and TripTimesGenerator.TripTimesOrderIndependent |
| TripTimesGenerator.GenerateTripTimes | RSC/generate_trip_times.py:13-30 | the reader loop builds the dictionary that the row-by-row update defines |
| TripTimesGenerator.LeastAdd | RSC/generate_trip_times.py:25-26 | keeping the smaller of the current start and a new departure keeps the least element |
| TripTimesGenerator.GreatestAdd | RSC/generate_trip_times.py:29-30 | keeping the larger of the current end and a new arrival keeps the greatest element |
| TripTimesGenerator.LeastUnique | RSC/generate_trip_times.py:25-26 | the least element of a set is unique |
| TripTimesGenerator.GreatestUnique | RSC/generate_trip_times.py:29-30 | the greatest element of a set is unique |
| TripTimesGenerator.RowSets | RSC/generate_trip_times.py:19-22 | the departures and arrivals of a trip over the rows are those of the earlier rows plus the last row's |
| TripTimesGenerator.TripTimesKeys | RSC/generate_trip_times.py:13-30 | a trip gets an entry if and only if it has a row |
| TripTimesGenerator.TripTimesBounds | RSC/generate_trip_times.py:13-30 | a trip's start is the least of "99:99:99" and its departure times, and its end is the greatest of "00:00:00" and its arrival times, in string order |
| TripTimesGenerator.BoundsStep | RSC/generate_trip_times.py:24-30 | one more row of a trip preserves both bounds |
| TripTimesGenerator.SameRowsSameEntry | RSC/generate_trip_times.py:19-30 | two row lists holding the same rows give a trip the same entry |
| TripTimesGenerator.TripTimesOrderIndependent | RSC/generate_trip_times.py:19-30 | the dictionary's contents do not depend on the order of the rows |
| StopTimesGenerator.TripsInfoOf | RSC/generate_stop_times.py:18-23 | the trip table after all rows, a later row overwriting an earlier; stated by StopTimesGenerator.TripsInfoKeys and StopTimesGenerator.LastTripRowWins |
| StopTimesGenerator.LoadTripsInfo | RSC/generate_stop_times.py:13-23 | the first reader loop builds the `trips_info` that the row-by-row assignment defines |
| StopTimesGenerator.TripsInfoKeys | RSC/generate_stop_times.py:18-23 | a trip has an entry if and only if it has a row in `trips.txt` |
| StopTimesGenerator.LastTripRowWins | RSC/generate_stop_times.py:19-23 | a trip's entry comes from its last row; later duplicates overwrite earlier ones |
| StopTimesGenerator.RecordsOf | RSC/generate_stop_times.py:36-49 | the records of the known-trip rows in row order; stated by StopTimesGenerator.RecordsCount and StopTimesGenerator.RecordsNonEmpty |
| StopTimesGenerator.AddStopTime | RSC/generate_stop_times.py:37-49 | one row appends its record to its stop's list when its trip is known; stated by StopTimesGenerator.AddStopTimeAt and StopTimesGenerator.AddStopTimeCount |
| StopTimesGenerator.StopsDataOf | RSC/generate_stop_times.py:30-49 | `stops_data` after all rows; stated by StopTimesGenerator.StopsDataLists and StopTimesGenerator.TotalIsKnownRows |
| StopTimesGenerator.CollectStopTimes | RSC/generate_stop_times.py:30-49 | the second reader loop builds the `stops_data` that the row-by-row append defines |
| StopTimesGenerator.RecordsCount | RSC/generate_stop_times.py:42-49 | one record per row of a known trip |
| StopTimesGenerator.AddStopTimeAt | RSC/generate_stop_times.py:42-49 | a row appends a record to its own stop's list, and only when its trip is known; other stops are unchanged |
| StopTimesGenerator.RecordsOfSnoc | RSC/generate_stop_times.py:42-49 | one more row adds its record exactly when its trip is known |
| StopTimesGenerator.StopsDataLists | RSC/generate_stop_times.py:30-49 | a stop's list holds, in row order, the records of its rows of known trips; the stop has a list if and only if there is at least one such record |
| StopTimesGenerator.StopsDataListsStep | RSC/generate_stop_times.py:36-49 | one more row preserves that description |
| StopTimesGenerator.RecordsNonEmpty | RSC/generate_stop_times.py:42-43 | there is a record if and only if some row is of a known trip |
| StopTimesGenerator.StopHasList | RSC/generate_stop_times.py:30-49 | a stop gets a file if and only if one of its rows is of a known trip |
| StopTimesGenerator.SumLengthsOther | RSC/generate_stop_times.py:44 | changing the list of an unlisted stop leaves the total unchanged |
| StopTimesGenerator.SumLengthsPut | RSC/generate_stop_times.py:44 | changing a listed stop's list changes the total by the change in its length |
| StopTimesGenerator.AddStopTimeCount | RSC/generate_stop_times.py:42-49 | a row of a known trip adds exactly one record overall; any other row adds none |
| StopTimesGenerator.TotalIsKnownRows | RSC/generate_stop_times.py:36-49 | across all stops there are as many records as rows of known trips, so no row is lost or duplicated |
| StopTimesGenerator.SortByTime | RSC/generate_stop_times.py:65 | sorting a stop's list is a permutation |
| StopTimesGenerator.TimeLessStrictOrder | RSC/generate_stop_times.py:65 | string comparison of times is a strict order |
| StopTimesGenerator.SortByTimeSortedStable | RSC/generate_stop_times.py:65 | a sorted list is in non-decreasing time order, and records with the same time keep their order |
| StopTimesGenerator.SortedSchedules | RSC/generate_stop_times.py:63-65 | the output keeps the stops and their order, with each stop's list sorted |
| StopTimesGenerator.AllSorted | RSC/generate_stop_times.py:63-65 | a map with the same stops whose every list is the sorted list is the output |
| StopTimesGenerator.SortSchedules | RSC/generate_stop_times.py:63-65 | the writing loop sorts every stop's list, and only that |
| StopTimesGenerator.GenerateSchedules | RSC/generate_stop_times.py:10-65 | the script's output is the per-stop sort of the join of its two files |
| StopTimesGenerator.StopSchedule | RSC/generate_stop_times.py:10-65 | a stop's output exists exactly when one of its rows is of a known trip, and is then the records of its rows, reordered by time only |

## Left out

- **Network, files and decoding**:
  - `fetchString`, `getBusPositions`, `getStopSchedule`, and the JSON and protobuf decoding are not modelled. Their outcomes (a decoded value, or `None` on failure) are parameters of the methods that use them.
  - The asset fallback is not modelled.
  - The CSV reading, JSON writing and progress printing of the two scripts are not modelled. Their rows are the input and their dictionaries the output.
- **Coroutines and the polling loop**:
  - The endless `while (true)` loop with its 10-second `delay` is left out. One iteration is modelled as `PollCycle`.
  - The four parallel `launch`es of `loadStaticData` run one after the other.
  - `withContext` dispatching is not modelled.
  - State flows are plain fields.
- **Clock and dates**:
  - `LocalTime.now()` and `LocalDate.now()` are parameters.
  - `LocalDate.parse` with `yyyyMMdd` is the parameter `parseDate`.
- ViewModel.MainViewModel.constructor: `init` also runs `loadStaticData`. The model leaves that call to `LoadStaticData`, because the decoded files are its inputs.
- ViewModel.MainViewModel.LoadStaticData: its contract does not restate the schedule invariant, because it does not modify any schedule field.
- **Floating point**: coordinates and bearings are carried as `real` values and never computed with. `Color.parseColor` and the `Int` colours it yields are not modelled. MapLayers.ParseColor models `parseColor` as a validation that returns the accepted hex text.
- **Rendering**: map styles, layers, sources, visibility, camera, icons and the route highlight are left out. So is creating the line layers in `updateRoutes`. The GeoJSON sources are the feature lists last given to them. A source that is still `null` before the style loads is not modelled.
- **Case and order of text**:
  - `lowercase` and `contains(ignoreCase = true)` map only ASCII and Latin-1 letters.
  - String order is order on characters. This agrees with Kotlin's UTF-16 order and Python's code-point order only outside the surrogate range.
- SearchDialog.FilteredRoutes: the sort is modelled by a stable insertion sort. Sortedness is proved only when every id is a non-negative `Int` or no id is an `Int`. When ids are mixed, the comparator is not an order (SearchDialog.MixedIdsCycle), and the outcome of Java's TimSort is not determined by the model.
- Strings.ParseInt: accepts only the ASCII digits '0' to '9' (after an optional sign). Kotlin's `toInt` and `toIntOrNull` also accept other Unicode decimal digits, such as Arabic-Indic ones. So a time like "١٢:٠٠:٠٠" converts to 43200 in the app but to -1 in the model, where the vehicle is then kept without the time-window test. The same gap applies to the hour of `formatGtfsTime`, the route number of `getColorForRouteHex` and the ids of the search comparator.
- ViewModel.MainViewModel.LoadStopSchedule: runs as one atomic step. In the app it is a launched coroutine that suspends at `getRelatedStops` and `getStopSchedule`. A `filterScheduleByDirection` can run during either suspension, and the final `applyScheduleFilter` then publishes the new rows under that selection, not under none. Two overlapping calls can also finish in either order, and the one that finishes last wins, since there is no last-query guard. The model does not capture these interleavings.
- **View glue**: view holders, binding, the click callbacks, `MainActivity`, and the dialog's layout and lifecycle beyond `onCreateView` are left out.
- **Logging**: `AppLogger` calls are left out.
- The deduplication key can collide when route ids or times contain '-'. This is documented by ViewModel.DedupKeyCollision rather than fixed, and ViewModel.UpcomingScheduleComplete assumes it does not happen.
