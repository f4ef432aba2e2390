/**
 * The dictionaries the pipeline passes between its stages. A Python dictionary
 * whose keys may be absent becomes a datatype whose fields are `Option`s.
 */
module Records {
  import opened Wrappers

  /**
   * A scraped page as `scrape_url` of src/scraper.py returns it: either
   * `{url, title, content, source}` or `{url, error}`.
   */
  datatype Document = Document(
    url: Option<string>,
    title: Option<string>,
    content: Option<string>,
    source: Option<string>,
    error: Option<string>)
  {
    /** The shape of a page that was fetched and parsed. */
    predicate IsScraped() {
      url.Some? && title.Some? && content.Some? && source.Some? && error.None?
    }

    /** The shape of a page whose fetch failed. */
    predicate IsFailure() {
      url.Some? && error.Some? && title.None? && content.None? && source.None?
    }
  }

  /** The metadata stored with each chunk, and read back with every search result. */
  datatype Metadata = Metadata(
    source: Option<string>,
    url: Option<string>,
    title: Option<string>,
    chunkIndex: Option<nat>)

  /** One entry of `search_similar`'s result. */
  datatype SearchResult = SearchResult(content: string, metadata: Metadata, similarity: real)
}
