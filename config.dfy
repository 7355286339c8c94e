/** The module-level constants of src/Septa.js. */
module Config {

  /** Host of the transit data feed. */
  const BaseUrl: string := "www3.septa.org"

  /** Path prefix every request starts with (it already ends in a slash). */
  const BasePath: string := "/hackathon/"

  /** Number of departures requested from the schedule feed, and the number
      of records the extraction step reads from its answer. */
  const ResultQty: nat := 9
}
