/** `scraper/infrastructure/json_content_scraper_repo.py`: content scrapers
    kept as a JSON list in one file, keyed by venue slug. The file is the
    `contents` field; `None` stands for a missing file. */
module JsonContentScraperRepository {
  import opened Wrappers
  import opened JsonStore

  /** A content scraper: its venue slug and the rest of its settings, which
      the repository only stores. */
  datatype ContentScraper = ContentScraper(venueSlug: string, settings: string)

  function SlugOf(c: ContentScraper): string {
    c.venueSlug
  }

  /** The `ValueError` raised for a file that does not validate. */
  datatype RepoError = ValueError(message: string)

  function InvalidFileMessage(path: string, errors: string): string {
    "Error validating json " + path + ": " + errors
  }

  /** What `get` answers: the whole list (no slug, or the empty slug) or the
      lookup by slug. */
  datatype Answer = Listing(all: seq<ContentScraper>) | Found(match_: Option<ContentScraper>)

  /** `get(venue_slug)` on the contents of the file at `path`. */
  function Query(path: string, contents: Contents<ContentScraper>, slug: Option<string>): (r: Result<Answer, RepoError>)
    ensures contents.Invalid? <==> r.Err?
    ensures contents.Invalid? ==> r == Err(ValueError(InvalidFileMessage(path, contents.errors)))
    ensures contents.Records? && (slug.None? || slug.value == "") ==> r == Ok(Listing(contents.records))
    ensures contents.Records? && slug.Some? && slug.value != "" ==>
              r.Ok? && r.value.Found? && (r.value.match_.Some? <==> HasKey(contents.records, slug.value, SlugOf))
  {
    match contents
    case Invalid(errors) => Err(ValueError(InvalidFileMessage(path, errors)))
    case Records(records) =>
      if slug.Some? && slug.value != "" then Ok(Found(FirstMatch(records, slug.value, SlugOf)))
      else Ok(Listing(records))
  }

  class JsonContentScraperRepo {
    const path: string
    var contents: Contents<ContentScraper>

    /** A missing file is created holding "[]"; an existing one is kept. */
    constructor (path: string, existing: Option<Contents<ContentScraper>>)
      ensures this.path == path
      ensures contents == if existing.None? then Records([]) else existing.value
    {
      this.path := path;
      if existing.None? {
        contents := Records([]);
      } else {
        contents := existing.value;
      }
    }

    /** `add(content_scraper)`: read the list, replace the records with the
        same venue slug or append, write the list back. Fails, writing
        nothing, when the file does not validate. */
    method Add(contentScraper: ContentScraper) returns (r: Result<(), RepoError>)
      modifies this
      ensures old(contents).Invalid? ==>
                r == Err(ValueError(InvalidFileMessage(path, old(contents).errors))) && contents == old(contents)
      ensures old(contents).Records? ==>
                r == Ok(()) && contents == Records(Upsert(old(contents).records, contentScraper, SlugOf))
    {
      var all := Get(None);
      if all.Err? {
        return Err(all.error);
      }
      var scrapers := all.value.all;
      if HasKey(scrapers, contentScraper.venueSlug, SlugOf) {
        scrapers := seq(|scrapers|, i requires 0 <= i < |scrapers| =>
                          if scrapers[i].venueSlug != contentScraper.venueSlug then scrapers[i] else contentScraper);
      } else {
        scrapers := scrapers + [contentScraper];
      }
      contents := Records(scrapers);
      return Ok(());
    }

    /** `get(venue_slug)`. */
    method Get(slug: Option<string>) returns (r: Result<Answer, RepoError>)
      ensures r == Query(path, contents, slug)
    {
      match contents {
        case Invalid(errors) =>
          return Err(ValueError(InvalidFileMessage(path, errors)));
        case Records(scrapers) =>
          if slug.Some? && slug.value != "" {
            return Ok(Found(FirstMatch(scrapers, slug.value, SlugOf)));
          }
          return Ok(Listing(scrapers));
      }
    }
  }

  /** After `add(c)` on a valid file, `get(c.venue_slug)` is `c` (for a
      non-empty slug) and every other slug answers as before. */
  lemma AddThenGet(path: string, records: seq<ContentScraper>, c: ContentScraper, other: string)
    requires c.venueSlug != "" && other != c.venueSlug
    ensures Query(path, Records(Upsert(records, c, SlugOf)), Some(c.venueSlug)) == Ok(Found(Some(c)))
    ensures Query(path, Records(Upsert(records, c, SlugOf)), Some(other)) ==
            if other == "" then Ok(Listing(Upsert(records, c, SlugOf))) else Query(path, Records(records), Some(other))
  {
    UpsertThenFind(records, c, SlugOf);
    UpsertKeepsOthers(records, c, SlugOf, other);
  }
}
