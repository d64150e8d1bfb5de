/**
 * The persisted table of offers: one row per offer, with the columns the
 * job writes back (scraper/main.py). Dates are opaque calendar values;
 * reading and writing the table as CSV is outside the model.
 */
module Table {
  import opened Wrappers

  datatype Date = Date(year: int, month: int, day: int)

  datatype Row = Row(
    id: int,
    title: string,
    description: string,
    url: string,
    price: Option<string>,
    rent: Option<string>,
    pets: Option<string>,
    furnished: Option<string>,
    rooms: Option<string>,
    area: Option<string>,
    elevator: Option<string>,
    mapUrl: Option<string>,
    district: Option<string>,
    createdAt: Option<string>,
    rentedAt: Option<Date>,
    status: Option<string>
  )

  /** The set of URLs of the table (`set(df["url"])`). */
  function RowUrls(t: seq<Row>): set<string>
  {
    set r | r in t :: r.url
  }

  /** URL is the table's key: no two rows share one. */
  predicate DistinctRowUrls(t: seq<Row>)
  {
    forall i, j :: 0 <= i < j < |t| ==> t[i].url != t[j].url
  }
}
