/** The fixed records of one problem instance: city areas, demand points
    (EV users) and candidate charging stations. */
module Instance {

  /** A point in latitude/longitude units; users and station sites are points. */
  datatype Point = Point(lat: real, lon: real)

  /** A city area: its centre and a relative user density. */
  datatype Area = Area(name: string, lat: real, lon: real, density: int)

  /** A candidate station; `id` is its index in the candidate list. */
  datatype Station = Station(id: nat, name: string, lat: real, lon: real, cost: int)

  /** The ten Pune areas the service optimises over. */
  const PuneAreas: seq<Area> := [
    Area("Hinjawadi", 18.595, 73.735, 20),
    Area("Baner", 18.563, 73.789, 15),
    Area("Kothrud", 18.507, 73.807, 10),
    Area("Hadapsar", 18.498, 73.941, 12),
    Area("Viman Nagar", 18.565, 73.911, 10),
    Area("Nigdi", 18.650, 73.770, 8),
    Area("Koregaon Park", 18.536, 73.896, 18),
    Area("Aundh", 18.570, 73.800, 14),
    Area("Wakad", 18.600, 73.750, 16),
    Area("Pimpri", 18.629, 73.813, 12)
  ]

  /** The site of a station, as the optimiser sees it. */
  function Site(s: Station): Point {
    Point(s.lat, s.lon)
  }
}
