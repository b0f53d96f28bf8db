/** Assembling one record from the detail pane (main.py,
    `scrape_business_data`, lines 114-137). The page is abstracted to what
    its locators give: the inner text of each element (for the rating, its
    `aria-label` attribute), or `None` where the locator matches nothing,
    and the page URL. The conversions of the review
    texts to numbers are parameters; one that raises makes the whole
    listing fail. */
module Scrape {
  import opened Wrappers
  import opened Strings
  import opened Records
  import opened Extraction
  import opened Driver

  /** What the locators of the detail pane give: inner texts, except for
      `reviewsAverage`, the `aria-label` attribute of the rating image. */
  datatype PageText = PageText(
    name: Option<string>,
    address: Option<string>,
    website: Option<string>,
    phone: Option<string>,
    reviewsCount: Option<string>,
    reviewsAverage: Option<string>,
    url: string)

  /** The conversions the source leaves to Python's `int` and `float`;
      `None` where the conversion raises. */
  datatype Parsers = Parsers(
    count: string -> Option<int>,
    rating: string -> Option<real>,
    coordinate: string -> Option<real>)

  /** A present element whose text fails to convert raises. */
  predicate Converts<T>(text: Option<string>, parse: string -> Option<T>) {
    text.None? || parse(text.value).Some?
  }

  /** The converted value of a present element, or `None` for an absent one. */
  function Converted<T>(text: Option<string>, parse: string -> Option<T>): Option<T>
    requires Converts(text, parse)
  {
    if text.None? then None else parse(text.value)
  }

  /** The record `scrape_business_data` returns, or `None` when it raises. */
  function ScrapeBusiness(page: PageText, search: string, parsers: Parsers): (r: Option<Business>)
    ensures r.Some? <==> Converts(page.reviewsCount, parsers.count) && Converts(page.reviewsAverage, parsers.rating)
  {
    if !Converts(page.reviewsCount, parsers.count) || !Converts(page.reviewsAverage, parsers.rating) then None
    else
      var coordinates := ExtractCoordinates(page.url, parsers.coordinate);
      Some(Business(
        name := Some(if page.name.Some? then Strip(page.name.value) else ""),
        address := Some(OrEmpty(page.address)),
        domain := if page.website.Some? then Some(Strip(page.website.value)) else None,
        website := Some(if page.website.Some? then "https://www." + Strip(page.website.value) else ""),
        phoneNumber := Some(OrEmpty(page.phone)),
        category := Some(Category(search)),
        location := Some(Location(search)),
        reviewsCount := Converted(page.reviewsCount, parsers.count),
        reviewsAverage := Converted(page.reviewsAverage, parsers.rating),
        latitude := if coordinates.Some? then Some(coordinates.value.0) else None,
        longitude := if coordinates.Some? then Some(coordinates.value.1) else None))
  }

  /** The identity key of the name, phone and address texts on a page. */
  function PageKey(page: PageText): Key {
    Key(Folded(Some(OrEmpty(page.name))), Stripped(Some(OrEmpty(page.phone))), Folded(Some(OrEmpty(page.address))))
  }

  /** How one listing enters the driver: a failure exactly when a review
      text fails to convert, and otherwise a record carrying the page's key
      and the category and location of the search. */
  function Observe(page: PageText, search: string, parsers: Parsers): (e: Entry)
    ensures e.Failed? <==> !Converts(page.reviewsCount, parsers.count) || !Converts(page.reviewsAverage, parsers.rating)
    ensures e.Extracted? ==> IdentityKey(e.business) == PageKey(page)
    ensures e.Extracted? ==> e.business.category == Some(Category(search))
                             && e.business.location == Some(Location(search))
  {
    match ScrapeBusiness(page, search, parsers)
    case None => Failed
    case Some(b) => ScrapedKey(page, search, parsers); Extracted(b)
  }

  /** A listing whose page shows a business the driver already knows leaves
      the driver's state unchanged, whether it fails or is extracted. */
  lemma {:induction false} ObserveKnownRefused(p: Progress, page: PageText, search: string, parsers: Parsers)
    requires PageKey(page) in p.seen
    ensures Offer(p, Observe(page, search, parsers)) == p
  {
  }

  /** The website is the domain behind `https://www.`; without a website
      element there is no domain and the website is empty. The name is
      always present and trimmed. */
  lemma {:induction false} ScrapedFields(page: PageText, search: string, parsers: Parsers)
    requires ScrapeBusiness(page, search, parsers).Some?
    ensures var b := ScrapeBusiness(page, search, parsers).value;
            && b.name.Some? && Trimmed(b.name.value)
            && (b.domain.Some? <==> page.website.Some?)
            && (b.domain.Some? ==> Trimmed(b.domain.value) && b.website == Some("https://www." + b.domain.value))
            && (b.domain.None? ==> b.website == Some(""))
            && (b.latitude.Some? <==> b.longitude.Some?)
  {
    if page.name.Some? {
      StripSplits(page.name.value);
    }
    if page.website.Some? {
      StripSplits(page.website.value);
    }
  }

  lemma {:induction false} FoldedStripped(t: string)
    ensures Folded(Some(Strip(t))) == Folded(Some(t))
  {
    LowerStripCommute(Strip(t));
    LowerStripCommute(t);
    StripIdempotent(t);
  }

  /** Stripping the name when scraping does not change the business's key:
      the key is that of the raw texts of the three elements. */
  lemma {:induction false} ScrapedKey(page: PageText, search: string, parsers: Parsers)
    requires ScrapeBusiness(page, search, parsers).Some?
    ensures IdentityKey(ScrapeBusiness(page, search, parsers).value) == PageKey(page)
  {
    if page.name.Some? {
      FoldedStripped(page.name.value);
    }
  }

  /** The same detail pane reached through two different searches (and so
      under two page URLs) yields the same business: category, location and
      coordinates do not enter the key. */
  lemma {:induction false} ScrapeKeyIgnoresSearch(page: PageText, url: string, search1: string, search2: string, parsers: Parsers)
    requires ScrapeBusiness(page, search1, parsers).Some?
    ensures ScrapeBusiness(page.(url := url), search2, parsers).Some?
    ensures IdentityKey(ScrapeBusiness(page, search1, parsers).value)
            == IdentityKey(ScrapeBusiness(page.(url := url), search2, parsers).value)
  {
    ScrapedKey(page, search1, parsers);
    ScrapedKey(page.(url := url), search2, parsers);
  }

  /** A page URL carrying the coordinates after `/@` gives the record
      their parsed values. */
  lemma {:induction false} ScrapedCoordinates(page: PageText, search: string, parsers: Parsers,
                           prefix: string, lat: string, lng: string, tail: string)
    requires ScrapeBusiness(page, search, parsers).Some?
    requires CoordinateParts(lat, lng, tail) && page.url == prefix + "/@" + lat + "," + lng + tail
    requires parsers.coordinate(lat).Some? && parsers.coordinate(lng).Some?
    ensures ScrapeBusiness(page, search, parsers).value.latitude == parsers.coordinate(lat)
    ensures ScrapeBusiness(page, search, parsers).value.longitude == parsers.coordinate(lng)
  {
    ExtractCoordinatesRoundTrip(prefix, lat, lng, tail, parsers.coordinate);
  }
}
