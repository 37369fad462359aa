# NYC precinct finder: the point-to-jurisdiction resolver and the duty calendars

This project models the logic of a web app that tells a New York City
officer or resident which NYPD precinct and patrol sector a point belongs
to. It also models the app's day-by-day calendars.

- **Polygon store.** Precinct boundaries and sector rings loaded from
  GeoJSON. Raw coordinates are normalised (a projected State Plane pair is
  converted through an abstract projection). Each ring has a min/max
  bounding box, and containment is the even-odd ray-casting test.
- **Precinct seed.** The stored precinct table is built from the raw
  precinct file. Invalid numbers are dropped, the centroid fallback is
  chosen per axis, the bounding box falls back to the centroid, and the
  start-up check decides whether to keep the seed or rebuild it. Recent
  searches are capped at the twenty newest.
- **Nearby precinct lookup.** Names of Places results are parsed by the
  precinct-number extractor: three named overrides, the ordinal pattern,
  "precinct" plus any digits, then a short number in an NYPD/police name
  that must be a known precinct. The first qualifying place wins. The
  route handler replies with that number, and the browser client turns
  the reply into a precinct hint.
- **Geocoding.** A city suffix is appended to the query. The first
  candidate inside the inclusive city box is chosen, with the fallback to
  the first candidate and the box rejection.
- **Tier chains.**
  - A map click uses boundary, then the sector's precinct, then the hint,
    then the nearest centroid.
  - "Where am I?" uses the hint, then the boundary, and has no nearest
    fallback.
  - An address search uses the hint, then the boundary, then the nearest
    centroid.
  - A polygon click keeps a sector only when it belongs to the clicked
    precinct. A saved place's sector is looked up by id within its
    precinct.
- **Calendars.**
  - The regular-day-off month schedule, with rotating and steady patterns
    and a negative remainder wrapped back into the cycle.
  - The opening-hours month map, its counts, the selected-day defaults,
    month navigation and the grid with its leading blanks.

Coordinates are `real`, so the crossing test's division is exact. A
JavaScript number that may be NaN or infinite is an `Option<real>`, with
`None` for the non-finite case. The inverse projection is a parameter
`project: (real, real) -> Option<(real, real)>`, where `None` means it
threw or gave a non-finite result. The haversine distance is a parameter
`dist: (LatLng, LatLng) -> real`. The Places hint is a parameter `hint:
Option<int>`. HTTP answers are datatypes holding what the provider
returned. The precinct and sector lists are given sequences in store
order and parse order.

Each loop of the source is a method proved equal to a specification
function. The properties the app relies on are proved as lemmas about
those functions:

- parity and first match for containment;
- argmin with earliest-wins ties;
- box tightness;
- the ordering of the three tier chains;
- the modular day index;
- the calendar partition.

The three copies of `extractPrecinctNum` (in the nearby-precinct route,
the Places client and the geo utilities) are textually identical. So are
their precinct lists. The extractor is therefore modelled once, in
`Names`, and each regular expression is a scanner over the name.

JavaScript's `filter` and `find` are modelled once, generically, in
`Lists`. The query filter, the sector selection and the saved-place
lookup all use them.

The geocoder's fallback to the first candidate can never produce a point.
If no candidate is inside the box, the first one is outside it, and it is
rejected. `Geocode.SelectionIsFirstInCity` states this.

## Model

| member | source | states |
|---|---|---|
| Geometry.ExtentIsTight | lib/db/sectorRepository.ts:87-96 | The min/max extent exists exactly for a non-empty list; it is ordered, encloses every point, and each of its four sides is attained by some point |
| Geometry.ComputeExtent | lib/db/database.ts:91-98 | The min/max loop over the vertices yields the extent: none for no vertices, else an ordered box that contains every vertex |
| Geometry.IsPointInPolygon | lib/db/sectorRepository.ts:154-169 | The toggling loop returns the parity of crossing edges (edges straddling the point's latitude whose crossing lies east of the point); an empty polygon gives false |
| Geometry.EdgeFractionInUnit | lib/db/database.ts:264-270 | On a straddling edge the latitudes differ, so the division is defined; the crossing longitude interpolates the edge with a fraction in [0, 1] |
| Geometry.CrossingWithinEdge | lib/db/sectorRepository.ts:160-166 | A straddling edge's crossing longitude lies between the edge's endpoint longitudes |
| Geometry.StraddlingsEven | lib/db/database.ts:264-272 | A closed ring straddles any latitude an even number of times |
| Geometry.WestOfRingCrossesAll | lib/db/database.ts:264-272 | For a point west of every vertex, each straddling edge counts as a crossing |
| Geometry.SomeCrossingEdge | lib/db/sectorRepository.ts:160-166 | A positive crossing count has a witnessing crossing edge |
| Geometry.BoxPrefilterSound | lib/db/sectorRepository.ts:128-135 | A box that encloses a ring contains every point the even-odd test accepts, so the inclusive box pre-filter never rejects one |
| Geometry.DegenerateRingContainsNothing | lib/db/database.ts:259-275 | A ring of fewer than three vertices contains no point |
| Coordinates.NormalizeCoord | lib/db/sectorRepository.ts:40-62 | A non-finite component gives null; every point returned lies in the inclusive box lat 40.45-40.95, lng -74.35 to -73.60 |
| Coordinates.NormalizeIdempotent | lib/db/sectorRepository.ts:57-60 | Feeding a returned point back as [lon, lat] returns the same point |
| Coordinates.FailedProjectionRejects | lib/db/sectorRepository.ts:46-60 | A pair out of degree range whose projection fails or lands outside the box falls through to the raw check, which then rejects it |
| Coordinates.ProjectedPairAccepted | lib/db/sectorRepository.ts:46-55 | A pair out of degree range whose projection lands in the box is returned as the projected point |
| Sectors.PartRingsAppend | lib/db/sectorRepository.ts:120-123 | Collecting part rings distributes over concatenation of parts, preserving order |
| Sectors.PartRingsSingle | lib/db/sectorRepository.ts:120-123 | A single MultiPolygon part contributes its first ring when it has one, else nothing |
| Sectors.OuterRings | lib/db/sectorRepository.ts:116-126 | A Polygon yields its first ring, or nothing when its first element is not an array; a MultiPolygon the first ring of each well-formed part in order; any other type or a non-array yields no rings |
| Sectors.RingBoundary | lib/db/sectorRepository.ts:81-83 | The accepted vertices of a ring are in the city box and each is the normalisation of some raw vertex |
| Sectors.RingBoundarySingle | lib/db/sectorRepository.ts:81-83 | One vertex contributes its normalisation when accepted and nothing when rejected |
| Sectors.RingBoundaryAppend | lib/db/sectorRepository.ts:81-83 | The boundary of a concatenation is the concatenation of the boundaries: every accepted vertex is kept, in order |
| Sectors.RingSectorsShape | lib/db/sectorRepository.ts:98-108 | Each pushed entry has the feature's id and number, at least three vertices, and an ordered box enclosing them |
| Sectors.RingSectorsExact | lib/db/sectorRepository.ts:80-108 | The k-th entry is built from the k-th ring with at least three accepted vertices (its id, number, accepted vertices and their min/max box), and there are exactly as many entries as such rings |
| Sectors.SurvivingRingGivesEntry | lib/db/sectorRepository.ts:80-108 | Every ring with at least three accepted vertices yields an entry carrying exactly those vertices |
| Sectors.FeatureSectorsShape | lib/db/sectorRepository.ts:74-108 | A feature with a non-finite pct or a blank trimmed sector id yields nothing; otherwise exactly one entry per exterior ring with at least three accepted vertices, each with that id and number |
| Sectors.ParsedSectorsWellFormed | lib/db/sectorRepository.ts:64-114 | Every parsed sector is well formed (three or more in-box vertices, ordered enclosing box) and comes from a non-skipped feature |
| Sectors.ParseFeature | lib/db/sectorRepository.ts:79-108 | The per-feature loop pushes exactly the ring entries of the specification, in ring order |
| Sectors.ParseSectors | lib/db/sectorRepository.ts:64-114 | The parse loop yields the entries of every feature in file order, each well formed |
| Sectors.SectorAtLocation | lib/db/sectorRepository.ts:145-152 | The found sector is in the list and both its box and polygon contain the point; none is found exactly when no sector matches |
| Sectors.SectorAtLocationIsFirst | lib/db/sectorRepository.ts:145-152 | Every sector before the one found is rejected |
| Sectors.FindSectorAtLocation | lib/db/sectorRepository.ts:145-152 | The loop with its box pre-check and early return finds the first matching sector |
| Sectors.BoxPrecheckNeverRejects | lib/db/sectorRepository.ts:147-149 | Over sectors whose boxes enclose their rings, the search with the box pre-check finds the same sector as one without it |
| Sectors.SectorsForPrecinct | lib/db/sectorRepository.ts:137-139 | Exactly the sectors of the given precinct are kept |
| Sectors.SectorsForPrecinctAppend | lib/db/sectorRepository.ts:137-139 | The selection keeps list order: selecting from a concatenation concatenates the selections |
| Precincts.LocationOf | lib/db/database.ts:89 | The location entry found has the precinct's number; none exactly when no entry has it |
| Precincts.TransformPrecinct | lib/db/database.ts:83-125 | A record is produced exactly for a finite positive number, and it is the specified record with that number |
| Precincts.PrecinctRecordBox | lib/db/database.ts:91-123 | A seeded precinct has a positive number, an ordered box enclosing its boundary (collapsed to the centroid when the boundary is empty), the file's boundary, and the finite raw station coordinates |
| Precincts.PrecinctRecordCentroid | lib/db/database.ts:100-105 | Each centroid axis independently takes the location file's value, else the finite station coordinate, else the box centre `(min + max) / 2` of that axis (which lies inside the box), else 0 |
| Precincts.SeededPrecinctsValid | lib/db/database.ts:127 | The seeded list is no longer than the raw list and every seeded precinct has a positive number |
| Precincts.SeedPrecincts | lib/db/database.ts:79-127 | The transform-and-filter loop yields the seeded list, all with positive numbers |
| Precincts.ValidRecordSeeded | lib/db/database.ts:85-86 | Every raw record with a finite positive number reaches the seeded list |
| Precincts.LowestNumbered | lib/db/database.ts:41 | The sample is a stored precinct with the smallest number; none only for an empty table |
| Precincts.MissingStationInvalidatesSeed | lib/db/database.ts:42-49 | A table whose lowest-numbered precinct has no station coordinates fails the seed check |
| Precincts.PrecinctAtLocation | lib/db/database.ts:172-182 | The precinct found is stored and its boundary contains the point; none exactly when no boundary contains it |
| Precincts.PrecinctAtLocationIsFirst | lib/db/database.ts:172-182 | Every precinct before the one found has a boundary that excludes the point |
| Precincts.FindPrecinctAtLocation | lib/db/database.ts:172-182 | The loop with an early return finds the first containing precinct, with no box pre-filter |
| Precincts.NearestIsFirstArgmin | lib/db/database.ts:195-201 | The chosen centroid is at most as far as every other, and strictly nearer than every earlier one, so ties go to the earliest |
| Precincts.FindNearestPrecinct | lib/db/database.ts:184-205 | Null exactly on an empty list; otherwise the precinct at the argmin index of the strict-less-than scan |
| Precincts.PrecinctByNumber | lib/db/database.ts:168-170 | The precinct found has the requested number; none exactly when no precinct has it |
| Database.InsertByAgeOrdered | lib/db/database.ts:237-240 | Adding a search keeps the table in timestamp order and adds exactly that entry |
| Database.KeepNewestKeepsNewest | lib/db/database.ts:243-247 | After the cap the table holds min(n, 20) entries from the table, in order, and every deleted entry is older than every kept one |
| Database.NewestSearchKept | lib/db/database.ts:236-248 | A search newer than all stored ones is appended and survives the cap as the newest entry |
| Database.Database.constructor | lib/db/database.ts:5-35 | The tables start empty and the table invariant holds |
| Database.Database.Initialize | lib/db/database.ts:38-65 | A non-empty table passing the seed check is kept; a failing one clears precincts, recent searches, favorites and saved places and reseeds; an empty table is seeded leaving user data untouched |
| Database.Database.AddRecentSearch | lib/db/database.ts:236-248 | From a table of any size, the search is added with a fresh id and the table is cut to its twenty newest entries, so it holds min(n + 1, 20) entries; the other tables are unchanged and the order invariant is kept |
| Calendar.DaysInMonth | lib/db/calendarRepository.ts:20 | A month has 28 to 31 days, and 29 exactly for February of a Gregorian leap year |
| Calendar.MonthStartsAfterPrevious | lib/db/calendarRepository.ts:20 | The days before month m+1 are those before m plus m's length |
| Calendar.YearLength | lib/db/calendarRepository.ts:20 | Consecutive year starts are 366 days apart in a leap year and 365 otherwise |
| Calendar.Weekday | lib/db/calendarRepository.ts:33 | The weekday of a date lies in 0..6 (0 is Sunday) |
| Calendar.NextDate | lib/db/calendarRepository.ts:23 | The next calendar day of a valid date is valid |
| Calendar.NextDateAdvancesOne | lib/db/calendarRepository.ts:24-26 | The next calendar day's day number is one more, across month and year ends |
| Calendar.NextDateNextWeekday | app/calendar/page.tsx:73 | The weekday of the next day is the following weekday |
| Calendar.FirstOf2024IsMonday | app/calendar/page.tsx:126-128 | 1 January 2024 falls on a Monday |
| Calendar.FirstWeekOf2024 | lib/db/calendarRepository.ts:33 | 1 to 6 January 2024 fall on Monday to Saturday and 7 January on Sunday |
| Schedule.JsRem | lib/db/calendarRepository.ts:29 | The truncating remainder is undefined for a zero divisor, takes the dividend's sign, and is smaller in magnitude than the divisor |
| Schedule.DayIndexInCycle | lib/db/calendarRepository.ts:29-30 | For a positive cycle the wrapped index lies in [0, cycleLength), even for a negative day difference, and equals the floored remainder |
| Schedule.RotatingNoDrift | lib/db/calendarRepository.ts:24-31 | Consecutive calendar days advance the rotating index by one modulo the cycle length |
| Schedule.SteadyIsWeekly | lib/db/calendarRepository.ts:32-34 | A steady pattern gives the same value to dates a week apart |
| Schedule.ZeroCycleNeverOff | lib/db/calendarRepository.ts:29-31 | A rotating pattern with cycle length 0 has no valid index, so no day is off |
| Schedule.ComputeMonthSchedule | lib/db/calendarRepository.ts:14-39 | The result has exactly the keys 1..daysInMonth, and each value says whether the pattern code for that day is "O" |
| Schedule.WeekendPatternJanuary2024 | lib/db/calendarRepository.ts:32-34 | With the steady pattern O,X,X,X,X,X,O, January 6 and 7 2024 are off and January 1-5 are on duty |
| Hours.PrecinctMonthSchedule | app/calendar/page.tsx:67-80 | No opening hours give an empty map; otherwise day d is present exactly when the weekly hours have an entry for its weekday, and copies it |
| Hours.StatsPartition | app/calendar/page.tsx:82-90 | With hours data, open plus closed days equal the map's entry count |
| Hours.FullWeekCoversMonth | app/calendar/page.tsx:82-90 | With an entry for all seven weekdays, the total is the month's length |
| Hours.SelectedDayInfo | app/calendar/page.tsx:92-103 | A selected day's name is its weekday's; a day missing from the map is open; an empty or missing hours text reads "No data" when hours exist, else "Hours not loaded yet" |
| Hours.PreviousMonth | app/calendar/page.tsx:105-107 | Moves back one month, wrapping January to December of the previous year |
| Hours.NextMonth | app/calendar/page.tsx:109-111 | Moves forward one month, wrapping December to January of the next year |
| Hours.MonthNavigationRoundTrip | app/calendar/page.tsx:105-111 | Previous then next (or next then previous) returns to the same month |
| Hours.NextMonthFollowsOn | app/calendar/page.tsx:109-111 | The next month's first day is the day after the current month's last day |
| Hours.InitialSelectedDay | app/calendar/page.tsx:37-44 | After a month change the selected day is today's date when the current month is shown, else 1 |
| Hours.RenderCalendar | app/calendar/page.tsx:130-196 | The grid has weekday(1st) leading blanks followed by one cell per day in order, each with its open/off/no-hours status |
| Names.ExtractPrecinctNum | app/api/nearby-precinct/route.ts:11-35 | A number extracted is one of the override numbers 14, 18, 22 or the value of a digit run in the name (each tier is pinned by the tier lemmas below) |
| Names.OrdinalTierDecides | app/api/nearby-precinct/route.ts:18-19 | Without an override, the leftmost `<digits> [st/nd/rd/th] precinct/pct` match gives its whole digit run, whether or not it is a known precinct |
| Names.PrecinctWordTierDecides | app/api/nearby-precinct/route.ts:21-24 | Without an override or ordinal match, a name mentioning "precinct" gives the run of its first digit, whether or not it is a known precinct |
| Names.TailMatchesIffSplit | app/api/nearby-precinct/route.ts:18 | The scanner for the tail of the ordinal pattern (spaces, optional st/nd/rd/th, spaces, precinct/pct) accepts exactly the texts that split into those parts |
| Names.OrdinalMatchStartsRun | app/api/nearby-precinct/route.ts:18-19 | An ordinal match starts at the beginning of a digit run, so the captured number is the whole run |
| Names.BoundedNumberIsWholeRun | app/api/nearby-precinct/route.ts:28 | A standalone-number match is a whole digit run of one to three digits between word boundaries |
| Names.LastTierKnownOnly | app/api/nearby-precinct/route.ts:26-34 | When the last tier decides, its result is the first standalone short number, is a known precinct, and is below 1000 |
| Names.LastTierRejectsUnknown | app/api/nearby-precinct/route.ts:26-34 | When the first standalone short number is not a known precinct the extractor returns null |
| Names.LastTierAccepts | app/api/nearby-precinct/route.ts:26-31 | With no earlier tier deciding, a name saying "nypd" or "police" whose leftmost `\b\d{1,3}\b` match is a known precinct yields that number |
| Names.LastTierNeedsPoliceWord | app/api/nearby-precinct/route.ts:26-34 | With no earlier tier deciding and neither "nypd" nor "police" in the name, the extractor returns null |
| Names.MidtownSouth | lib/utils/googlePlaces.ts:58 | "Midtown South Precinct" extracts to 14 though it has no numeral |
| Names.OverridesComeFirst | lib/utils/geo.ts:82-84 | The name overrides are tested first and in order: "midtown" with "south" gives 14, else "midtown" with "north" gives 18, else "central park" gives 22, whatever numerals the name holds |
| Names.MidtownNorth | lib/utils/geo.ts:83 | "Midtown North" extracts to 18 though it has no numeral |
| Names.CentralPark | lib/utils/geo.ts:84 | "Central Park Precinct" extracts to 22 though it has no numeral |
| Names.DefaultNameReadsBack | lib/db/database.ts:109 | The seed's default name "<n>th Precinct" extracts back to n |
| Names.PoliceFirstNumberOnly | lib/utils/geo.ts:94-100 | In "Police 2 14" only the first standalone number counts, so nothing is extracted although 14 is a precinct |
| Names.FourDigitsNeverMatch | lib/utils/geo.ts:94-100 | The name "NYPD 1234" yields null: its four-digit run is no standalone short number (the general fact is `Names.BoundedNumberIsWholeRun`) |
| Nearby.FirstQualifying | app/api/nearby-precinct/route.ts:68-73 | A number found is a known precinct; an empty list finds nothing |
| Nearby.ScanStopsAtFirst | lib/utils/googlePlaces.ts:36-42 | After non-qualifying places the next place decides: a nameless one throws and a qualifying one wins; later places are ignored |
| Nearby.NotFoundMeansNoneQualifies | app/api/nearby-precinct/route.ts:68-75 | The scan finds nothing exactly when every place is named and none qualifies; unknown numbers are skipped, not fatal |
| Nearby.FirstQualifyingPlace | lib/utils/googlePlaces.ts:36-44 | The loop with its early return computes the first-qualifying scan |
| Nearby.NearbyPrecinct | lib/utils/googlePlaces.ts:30-48 | A failed fetch, a non-OK status or an empty result list gives null; any number given is a known precinct |
| Nearby.FindNearbyPrecinct | lib/utils/googlePlaces.ts:16-49 | The client returns the first qualifying place's number, or null on every failure |
| Nearby.HandleNearbyRequest | app/api/nearby-precinct/route.ts:37-80 | A request missing lat or lng gets 400 with an error body; otherwise 200 with the first qualifying number or null, always a known precinct |
| Nearby.HintFromRoute | lib/utils/geo.ts:105-117 | A failed call, a non-2xx reply, a null or a 0 number give no hint; a hint is the non-zero number of a 2xx precinct reply |
| Nearby.HintThroughRoute | lib/utils/geo.ts:108-112 | The refused request gives no hint, and an answered one gives exactly the Places client's number |
| Geocode.NycQuery | lib/utils/geo.ts:40 | The query is the address alone when its lower-cased form contains "new york", and otherwise the address followed by ", New York City, NY" |
| Geocode.SuffixMentionsNewYork | lib/utils/geo.ts:40 | The appended ", New York City, NY" itself mentions "new york" |
| Geocode.NycQueryIdempotent | lib/utils/geo.ts:40 | Every query mentions "new york", so building it twice changes nothing |
| Geocode.FirstInCity | lib/utils/geo.ts:47-51 | The index found is the first candidate inside the city box; none when no candidate is |
| Geocode.SelectCandidate | lib/utils/geo.ts:46-61 | A chosen point is inside the inclusive box lat 40.49-40.92, lng -74.26 to -73.70 |
| Geocode.GeocodeResult | lib/utils/geo.ts:38-69 | A failure or a missing or empty result list gives null; every point returned is in the city |
| Geocode.SelectionIsFirstInCity | lib/utils/geo.ts:46-56 | A point is returned exactly when some candidate is in the city, and it is the first such one, so the fallback to the first result never yields a point |
| Resolver.FocusPoint | components/map/MapComponent.tsx:66-75 | No precinct gives null; otherwise the station point when both station coordinates are finite, else the centroid |
| Resolver.HintPrecinct | components/map/MapComponent.tsx:88-93 | A hint tier result is a stored precinct with the hinted number |
| Resolver.NearestPrecinct | components/map/MapComponent.tsx:94-96 | The nearest-centroid tier fails only for an empty store |
| Resolver.SectorPrecinct | components/map/MapComponent.tsx:85-87 | The sector tier gives the stored precinct carrying the found sector's number |
| Resolver.MapChain | components/map/MapComponent.tsx:77-99 | The map click's precinct is stored, and is missing only for an empty store |
| Resolver.MapChainTiers | components/map/MapComponent.tsx:82-96 | A boundary hit decides alone; the sector tier only when no boundary holds; the hint only when both fail; nearest only when all three fail |
| Resolver.BoundaryHitIgnoresLaterTiers | components/map/MapComponent.tsx:82-84 | Inside some boundary the hint and distance do not matter: the result is the first containing precinct |
| Resolver.ResolvePrecinctAndSector | components/map/MapComponent.tsx:77-99 | The precinct is the map chain's, and the sector is the raw first-match sector whichever tier chose the precinct |
| Resolver.HandleMapClick | components/map/MapComponent.tsx:313-327 | A click with a non-finite coordinate is ignored; otherwise it selects the chain's precinct, the sector at the point and the point |
| Resolver.DetectChain | components/map/MapComponent.tsx:345-352 | "Where am I?" finds nothing exactly when the hint fails and no boundary holds the point |
| Resolver.DetectUserLocation | components/map/MapComponent.tsx:338-353 | A non-finite position is refused; the precinct is hint-then-boundary and a sector is looked up only when a precinct was found |
| Resolver.DetectHasNoNearestFallback | components/map/MapComponent.tsx:345-352 | Outside every boundary with no hint "Where am I?" finds nothing while a map click still picks the nearest precinct |
| Resolver.PolygonClick | components/map/MapComponent.tsx:224-257 | An unknown number selects nothing; a kept sector belongs to the clicked precinct and is the sector at a finite click point |
| Search.Matching | app/search/page.tsx:94-104 | The filter never yields more results than there are precincts |
| Search.MatchingIsFilter | app/search/page.tsx:94-104 | Every result is a stored precinct matching the query, and every stored precinct that matches the query is among the results |
| Search.MatchingAppend | app/search/page.tsx:94-104 | Filtering preserves order: filtering a concatenation concatenates the filtered parts |
| Search.SearchResults | app/search/page.tsx:89-105 | A blank query gives no results; otherwise the precincts matching the lower-cased query |
| Search.NumberQueryFindsPrecinct | app/search/page.tsx:101 | A query contained in a precinct's decimal number lists that precinct |
| Search.SearchChain | app/search/page.tsx:146-159 | The address search's precinct is stored, and missing only for an empty store |
| Search.ChainsDisagree | app/search/page.tsx:146-159 | With a boundary holding A and a hint naming B, a map click shows A and an address search shows B |
| Search.ChainsAgreeWithoutHint | app/search/page.tsx:146-159 | Without a hint, inside some boundary, both chains give the first containing precinct |
| Search.DisplayPoint | app/search/page.tsx:168-171 | Each axis of the marker is the station coordinate when defined, else the geocoded one |
| Search.AddressSearch | app/search/page.tsx:128-193 | A blank query or a running search is ignored; no geocoded point means not located; an empty store means no precinct; otherwise the search chain's precinct, the first-match sector, the trimmed query and the display point |
| Lists.FindAfterFilter | app/search/page.tsx:246-247 | Searching the filtered list finds the first element of the whole list passing both tests, and nothing exactly when no element passes both |
| Search.FirstWithId | app/search/page.tsx:247 | The sector found has the requested id; none exactly when no sector has it |
| Search.SavedPlaceSector | app/search/page.tsx:244-248 | No sector without an id; otherwise the first sector in list order of the place's precinct with that id, none exactly when there is no such sector |
| Search.SavedPlacePress | app/search/page.tsx:239-256 | Nothing is selected when the place's precinct is not stored; otherwise that precinct, the saved-place sector (the place's id in its precinct), the place's address as the searched address, and its coordinates |

## Left out

- The haversine distance is an uninterpreted parameter `dist`. Only the argmin properties of the nearest-centroid scan are proved.
- The proj4 inverse Lambert Conformal Conic projection is a parameter `project`. Its float arithmetic is not modelled.
- IEEE NaN and infinities are modelled only as `None` where the code tests `Number.isFinite`.
  - A stored centroid is a `real`, so the NaN centroid a non-finite location-file value would produce is not modelled.
  - For the same reason `Resolver.FocusPoint` never returns null for a present precinct, and the seed check omits the centroid-finiteness test.
- Calendar.NextDateAdvancesOne: `diffDays` is the civil day-number difference. The source floors a millisecond difference between local midnights, which can be off by one across a DST change. The parsing of the anchor date string is not modelled either.
- Schedule.RotatingNoDrift: proved over the civil day difference, not the source's floored milliseconds (lib/db/calendarRepository.ts:24-26). With an anchor in standard time, the source gives the spring-forward day and the day after it the same `diffDays`, which is 23 hours short of a whole day. The rotating index then repeats once and stays one day behind until the autumn change. The model has no such repeat.
- Schedule.ComputeMonthSchedule: rotating entries use the civil day difference, so the repeated index at the spring DST change is not reproduced (see Schedule.RotatingNoDrift).
- The JavaScript `Date` quirks for years 0-99 and for days outside the month are not modelled; dates are Gregorian (year, month 0-11, day).
- Dexie/IndexedDB is modelled as sequences held by the `Database` class.
  - Left out: indexes, transactions, duplicate-key errors of `bulkAdd`, and the JSON imports.
  - Left out: the laws, squads and schedule loaders.
  - The precinct table is given in store order, and `toArray`'s primary-key order is not modelled.
- Database.Database.AddRecentSearch: the current time is a parameter. The search page imports the uncapped `addRecentSearch` of lib/db/searchRepository.ts; the model follows the capped one in lib/db/database.ts, which accepts a table of any size (so one the uncapped writer grew past twenty). `Search.AddressSearch` does not write the recent search.
- The network and the browser are left out: the fetch calls, the Next.js request objects, geolocation and its retry, reverse geocoding, permission checks. Their answers are parameters.
- React state, effects, map drawing, toasts and all JSX are left out.
- Sector metadata fields beyond id, precinct number, boundary and box are not modelled.
- Precinct numbers are integers, so fractional JSON numbers are not modelled.
- JavaScript coercion of arrays to numbers, non-ASCII case mapping and `parseInt` precision on very long digit runs are not modelled. Case folding covers A-Z only.
- The `handleSelect` and `handleRecentPress` handlers of the search page, and the two-tier hint-then-nearest chains of the settings and chat pages, are not modelled.
- Resolver.HandleMapClick: a click event without a position is not modelled, because the position is always given here.
- Hours.SelectedDayInfo: the formatted date string and the short weekday name are not modelled.
- The module-level sector cache is a value built once by `Sectors.ParseSectors` and passed in.
- Precincts.PrecinctByNumber: the indexed lookup is modelled as the first stored precinct with that number.
