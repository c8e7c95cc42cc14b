/**
 The rows the dashboard loads: one per population CSV line and one per
 mortality CSV line, with their numeric columns already parsed.
 */
module Records {

  datatype Option<T> = None | Some(value: T)

  /** Fine age-band columns read from each mortality row: ages 0, 1, 2, 3 and 4,
      the five-year bands 5-9, 10-14, ..., 90-94, and 95 and above. */
  const BandCount: nat := 24

  type AgeBands = s: seq<nat> | |s| == BandCount witness seq(24, _ => 0)

  /** A population row: `Country`, `Year`, `Population at all ages`. */
  datatype PopulationRecord = PopulationRecord(country: string, year: int, population: nat)

  /** A mortality row: `Country`, `Year`, `Cause`, `Sex`, `Deaths at all ages`
      and the fine age-band death counts, in the order of `AgeBands`. */
  datatype DeathRecord = DeathRecord(
    country: string,
    year: int,
    cause: string,
    sex: string,
    deaths: nat,
    bands: AgeBands)

  function DeathCount(r: DeathRecord): nat { r.deaths }

  function PopulationCount(r: PopulationRecord): nat { r.population }
}
