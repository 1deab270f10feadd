/** The record a crawler agent emits for one place (RawCrawledPlace). */
module Crawl {
  import opened Wrappers

  /**
   * Every optional field may be absent.  `source` is declared as always
   * present in the TypeScript type, but the Python port reads it with a
   * default, so it is optional here too; `tags` is one comma-separated string
   * and `metadata` a JSON text such as {"score": 87.5}.
   */
  datatype Raw = Raw(
    name: string,
    category: Option<string>,
    description: Option<string>,
    address: Option<string>,
    lat: Option<real>,
    lng: Option<real>,
    rating: Option<real>,
    reviewCount: Option<int>,
    source: Option<string>,
    sourceUrl: Option<string>,
    snippet: Option<string>,
    tags: Option<string>,
    metadata: Option<string>)

  /** A record with just a name, a source and optional coordinates. */
  function Named(name: string, source: Option<string>, lat: Option<real>, lng: Option<real>): (r: Raw)
    ensures r.name == name && r.source == source && r.lat == lat && r.lng == lng
  {
    Raw(name, None, None, None, lat, lng, None, None, source, None, None, None, None)
  }

  /** Great-circle distance in whole metres between two (lat, lng) points; the haversine formula is not modelled. */
  type Distance = (real, real, real, real) -> int
}
