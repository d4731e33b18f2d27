/** The mirror record that the parser builds and the scorers score (the `site` struct). */
module Records {
  import opened Common

  /** The fields of a net/url URL that the parser reads or sets; the rest of url.URL is not modelled. */
  datatype Url = Url(scheme: string, host: string, path: string)

  /**
   * One mirror: its host names (the first is the canonical one), its type, the
   * architectures it carries, a URL per package protocol (None is Go's nil
   * *url.URL) and the score a scorer assigns.
   */
  datatype Site = Site(
    hosts: seq<string>,
    siteType: string,
    architectures: seq<string>,
    packProtocols: map<string, Option<Url>>,
    score: int)

  /** Go's zero `site`, and the record a site marker opens before its hosts are read. */
  const EmptySite := Site([], "", [], map[], 0)
}
