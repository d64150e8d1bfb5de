/**
 * The scraped offer record (scraper/offer.py).
 *
 * `furnished` and `elevator` are declared as optional booleans in the record,
 * but the scraper stores the parameter's label text in them, so here they are
 * optional strings like the other descriptive attributes.
 */
module Offers {
  import opened Wrappers

  datatype Offer = Offer(
    id: int,
    title: string,
    description: Option<string>,
    url: string,
    mapUrl: Option<string>,
    district: Option<string>,
    price: Option<string>,
    rent: Option<string>,
    pets: Option<string>,
    furnished: Option<string>,
    rooms: Option<string>,
    floor: Option<string>,
    area: Option<string>,
    elevator: Option<string>,
    buildtype: Option<string>,
    createdAt: Option<string>,
    rentedAt: Option<string>,
    status: Option<string>
  )

  /** The set of URLs occurring in a list of offers. */
  function UrlSet(s: seq<Offer>): set<string>
  {
    set o | o in s :: o.url
  }

  /** No two offers of `s` share a URL. */
  predicate DistinctUrls(s: seq<Offer>)
  {
    forall i, j :: 0 <= i < j < |s| ==> s[i].url != s[j].url
  }
}
