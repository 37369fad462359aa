/** The records the core passes around (precincts, sectors, saved places, recent searches). */
module Records {
  import opened Wrappers
  import opened Geometry

  /** One weekday entry of a precinct's opening hours. */
  datatype DayHours = DayHours(day: string, hours: string, isOpen: bool)

  /**
   * A precinct as stored after seeding. A station coordinate is `None` when
   * the raw value was not a finite number.
   */
  datatype Precinct = Precinct(
    precinctNum: int,
    name: string,
    address: string,
    phone: string,
    borough: string,
    stationLat: Option<real>,
    stationLng: Option<real>,
    boundary: seq<LatLng>,
    centroidLat: real,
    centroidLng: real,
    boundingBox: BoundingBox,
    openingHours: seq<DayHours>)
  {
    function Centroid(): LatLng { LatLng(centroidLat, centroidLng) }
  }

  /**
   * One ring of a patrol sector. A sector whose geometry has several parts
   * is stored as several entries sharing `sectorId` and `precinctNum`.
   */
  datatype Sector = Sector(
    sectorId: string,
    precinctNum: int,
    boundary: seq<LatLng>,
    boundingBox: BoundingBox)

  datatype PlaceKind = Home | Work

  /** A saved home or work place; an absent sector id is the empty string. */
  datatype SavedPlace = SavedPlace(
    kind: PlaceKind,
    precinctNum: int,
    sectorId: string,
    address: string,
    latitude: real,
    longitude: real)

  datatype Favorite = Favorite(favoriteId: nat, precinctNum: int, favoriteLabel: string, createdAt: int)

  datatype RecentSearch = RecentSearch(
    searchId: nat,
    queryText: string,
    displayAddress: string,
    latitude: real,
    longitude: real,
    timestamp: int)
}
