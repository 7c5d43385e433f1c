/** `applications/event_discovery/get_venue_pagination.py` and
    `get_venue_content_scraper.py`: look a venue's record up by its slug and
    fail when there is none. The repository's `get` is passed in as the
    function `lookup`; neither function can change the repository. */
module VenueLookup {
  import opened Wrappers
  import opened JsonStore
  import opened PaginationDomain
  import opened JsonContentScraperRepository

  /** A venue; only its slug is read here. */
  datatype Venue = Venue(slug: string)

  /** The `ValueError` message of both lookups (both say "Pagination"). */
  function NotFoundMessage(slug: string): string {
    "Pagination with venue_slug " + slug + " not found"
  }

  /** `get_venue_pagination(repo, venue)`. */
  function GetVenuePagination(lookup: string -> Option<Pagination>, venue: Venue): (r: Result<Pagination, string>)
    ensures r.Ok? <==> lookup(venue.slug).Some?
    ensures r.Ok? ==> r.value == lookup(venue.slug).value
    ensures r.Err? ==> r.error == NotFoundMessage(venue.slug)
  {
    var pagination := lookup(venue.slug);
    if pagination.None? then Err(NotFoundMessage(venue.slug)) else Ok(pagination.value)
  }

  /** `get_venue_content_scraper(repo, venue)`. */
  function GetVenueContentScraper(lookup: string -> Option<ContentScraper>, venue: Venue): (r: Result<ContentScraper, string>)
    ensures r.Ok? <==> lookup(venue.slug).Some?
    ensures r.Ok? ==> r.value == lookup(venue.slug).value
    ensures r.Err? ==> r.error == NotFoundMessage(venue.slug)
  {
    var contentScraper := lookup(venue.slug);
    if contentScraper.None? then Err(NotFoundMessage(venue.slug)) else Ok(contentScraper.value)
  }

  /** The repository is asked about the venue's slug and nothing else: two
      repositories that answer alike for it give the same outcome. */
  lemma PaginationAsksOnlyForSlug(l1: string -> Option<Pagination>, l2: string -> Option<Pagination>, venue: Venue)
    requires l1(venue.slug) == l2(venue.slug)
    ensures GetVenuePagination(l1, venue) == GetVenuePagination(l2, venue)
  {
  }

  lemma ContentScraperAsksOnlyForSlug(l1: string -> Option<ContentScraper>, l2: string -> Option<ContentScraper>,
                                      venue: Venue)
    requires l1(venue.slug) == l2(venue.slug)
    ensures GetVenueContentScraper(l1, venue) == GetVenueContentScraper(l2, venue)
  {
  }

  /** Over the JSON repository's records, the lookup succeeds exactly when
      some record has the venue's slug, and then gives the first such
      record. */
  lemma ContentScraperFromRecords(records: seq<ContentScraper>, venue: Venue)
    ensures var r := GetVenueContentScraper(s => FirstMatch(records, s, SlugOf), venue);
            && (r.Ok? <==> HasKey(records, venue.slug, SlugOf))
            && (r.Ok? ==> exists i :: 0 <= i < |records| && r.value == records[i] && records[i].venueSlug == venue.slug &&
                                     forall j :: 0 <= j < i ==> records[j].venueSlug != venue.slug)
  {
    if HasKey(records, venue.slug, SlugOf) {
      FirstMatchIsFirst(records, venue.slug, SlugOf);
    }
  }
}
