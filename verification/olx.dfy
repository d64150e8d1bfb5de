/**
 * Walking the listing API page by page and turning each listing into an
 * offer (scraper/olx.py).
 *
 * The web is a map from URL to the decoded page body a request returns; a
 * URL outside the map is a request that raises. Because next-links may form
 * a cycle, the walk is bounded by a number of page requests (`fuel`).
 */
module Olx {
  import opened Wrappers
  import opened Offers

  /** A JSON number: its value decides truthiness, its text is what the URL template prints. */
  datatype Coord = Coord(value: real, text: string)

  datatype ParamValue = ParamValue(labelText: Option<string>)

  /** One element of `params`; `value` is `None` when that key is absent or null. */
  datatype Param = Param(key: Option<string>, value: Option<ParamValue>)

  /**
   * One element of a page's `data` array, reduced to the fields the scraper
   * reads; `district` is `location.district.name`.
   */
  datatype RawOffer = RawOffer(
    id: int,
    title: Option<string>,
    description: string,
    url: Option<string>,
    lat: Option<Coord>,
    lon: Option<Coord>,
    district: Option<string>,
    createdTime: Option<string>,
    status: Option<string>,
    params: seq<Param>
  )

  /** `links.next`: missing, null or an empty object (all falsy), or a non-empty object. */
  datatype NextLink = NoNext | NextObject(href: Option<string>)

  /** A decoded page: falsy, or an object with `data` and (unless missing) `links`. */
  datatype Page = FalsyPage | PageBody(data: seq<RawOffer>, links: Option<NextLink>)

  datatype ScrapeError =
    | RequestFailed(url: string)       // the request or the JSON decoding raised
    | MissingLinks(url: string)        // `data.get("links")` is None
    | MissingParamValue(key: string)   // a recognised param without a `value` object
    | UnboundLocal(name: string)       // `floor` or `buildtype` read before any assignment
    | PageLimit                        // more pages than the request budget allows

  /** A local variable of `scrape` that may not have been assigned yet. */
  datatype Slot = Unbound | Bound(labelText: Option<string>)

  /** The local variables one listing's param scan writes. */
  datatype Fields = Fields(
    price: Option<string>,
    rent: Option<string>,
    furnished: Option<string>,
    rooms: Option<string>,
    area: Option<string>,
    elevator: Option<string>,
    pets: Option<string>,
    floor: Slot,
    buildtype: Slot
  )

  /** `floor` and `buildtype`: the locals that survive from one listing to the next. */
  datatype Carry = Carry(floor: Slot, buildtype: Slot)

  predicate Truthy(s: Option<string>)
  {
    s.Some? && s.value != ""
  }

  predicate NonZero(c: Option<Coord>)
  {
    c.Some? && c.value.value != 0.0
  }

  /** The param keys the scan recognises. */
  const ParamKeys: seq<string> := ["price", "rent", "furniture", "rooms", "m", "floor_select", "builttype", "winda", "pets"]

  predicate Recognised(p: Param)
  {
    p.key.Some? && p.key.value in ParamKeys
  }

  /** The label a param carries (`param.get("value").get("label")`). */
  function LabelOf(p: Param): Option<string>
  {
    if p.value.Some? then p.value.value.labelText else None
  }

  /** The fields before a listing's scan: seven reset, `floor` and `buildtype` carried over. */
  function FreshFields(c: Carry): Fields
  {
    Fields(None, None, None, None, None, None, None, c.floor, c.buildtype)
  }

  /** The effect of one param on the fields. */
  function ApplyParam(f: Fields, p: Param): Result<Fields, ScrapeError>
  {
    if !Recognised(p) then Ok(f)
    else if p.value.None? then Err(MissingParamValue(p.key.value))
    else
      var key, text := p.key.value, p.value.value.labelText;
      if key == "price" then Ok(f.(price := text))
      else if key == "rent" then Ok(f.(rent := text))
      else if key == "furniture" then Ok(f.(furnished := text))
      else if key == "rooms" then Ok(f.(rooms := text))
      else if key == "m" then Ok(f.(area := text))
      else if key == "floor_select" then Ok(f.(floor := Bound(text)))
      else if key == "builttype" then Ok(f.(buildtype := Bound(text)))
      else if key == "winda" then Ok(f.(elevator := text))
      else Ok(f.(pets := text))
  }

  /** The scan of a listing's params, in order, stopping at the first error. */
  function ScanParams(params: seq<Param>, f: Fields): (r: Result<Fields, ScrapeError>)
    ensures r.Err? ==> r.error.MissingParamValue?
    decreases |params|
  {
    if params == [] then Ok(f)
    else
      match ScanParams(params[..|params| - 1], f)
      case Err(e) => Err(e)
      case Ok(g) => ApplyParam(g, params[|params| - 1])
  }

  lemma {:induction false} ScanParamsPrefixErr(params: seq<Param>, f: Fields, i: nat)
    requires i <= |params| && ScanParams(params[..i], f).Err?
    ensures ScanParams(params, f) == ScanParams(params[..i], f)
    decreases |params|
  {
    if i < |params| {
      var front := params[..|params| - 1];
      assert front[..i] == params[..i];
      ScanParamsPrefixErr(front, f, i);
    } else {
      assert params[..i] == params;
    }
  }

  /** The label of the last param with `key`, if any param has it. */
  function LastLabel(params: seq<Param>, key: string): Option<Option<string>>
    decreases |params|
  {
    if params == [] then None
    else if params[|params| - 1].key == Some(key) then Some(LabelOf(params[|params| - 1]))
    else LastLabel(params[..|params| - 1], key)
  }

  /** The last matching label if there is one, otherwise the value before the scan. */
  function Override(last: Option<Option<string>>, before: Option<string>): Option<string>
  {
    if last.Some? then last.value else before
  }

  function OverrideSlot(last: Option<Option<string>>, before: Slot): Slot
  {
    if last.Some? then Bound(last.value) else before
  }

  /**
   * Last match wins: each recognised field of `g` holds the label of the last
   * param in `params` with its key, and its value in `f` when no param has
   * that key.
   */
  predicate LastWins(params: seq<Param>, f: Fields, g: Fields)
  {
    && g.price == Override(LastLabel(params, "price"), f.price)
    && g.rent == Override(LastLabel(params, "rent"), f.rent)
    && g.furnished == Override(LastLabel(params, "furniture"), f.furnished)
    && g.rooms == Override(LastLabel(params, "rooms"), f.rooms)
    && g.area == Override(LastLabel(params, "m"), f.area)
    && g.floor == OverrideSlot(LastLabel(params, "floor_select"), f.floor)
    && g.buildtype == OverrideSlot(LastLabel(params, "builttype"), f.buildtype)
    && g.elevator == Override(LastLabel(params, "winda"), f.elevator)
    && g.pets == Override(LastLabel(params, "pets"), f.pets)
  }

  /** The field one param writes: the one its key names, and only that one. */
  lemma ApplyParamWrites(g0: Fields, p: Param, g: Fields)
    requires ApplyParam(g0, p) == Ok(g)
    ensures g.price == if p.key == Some("price") then LabelOf(p) else g0.price
    ensures g.rent == if p.key == Some("rent") then LabelOf(p) else g0.rent
    ensures g.furnished == if p.key == Some("furniture") then LabelOf(p) else g0.furnished
    ensures g.rooms == if p.key == Some("rooms") then LabelOf(p) else g0.rooms
    ensures g.area == if p.key == Some("m") then LabelOf(p) else g0.area
    ensures g.floor == if p.key == Some("floor_select") then Bound(LabelOf(p)) else g0.floor
    ensures g.buildtype == if p.key == Some("builttype") then Bound(LabelOf(p)) else g0.buildtype
    ensures g.elevator == if p.key == Some("winda") then LabelOf(p) else g0.elevator
    ensures g.pets == if p.key == Some("pets") then LabelOf(p) else g0.pets
  {
  }

  /** One more param keeps last-match-wins. */
  lemma ScanStep(params: seq<Param>, f: Fields, g0: Fields, g: Fields)
    requires params != [] && LastWins(params[..|params| - 1], f, g0)
    requires ApplyParam(g0, params[|params| - 1]) == Ok(g)
    ensures LastWins(params, f, g)
  {
    ApplyParamWrites(g0, params[|params| - 1], g);
  }

  /**
   * After a successful scan each recognised field holds the label of the last
   * param with its key, and keeps its earlier value when no param has that
   * key. Unrecognised keys have no effect.
   */
  lemma {:induction false} ScanLastWins(params: seq<Param>, f: Fields)
    requires ScanParams(params, f).Ok?
    ensures LastWins(params, f, ScanParams(params, f).value)
    decreases |params|
  {
    if params != [] {
      var front := params[..|params| - 1];
      ScanLastWins(front, f);
      ScanStep(params, f, ScanParams(front, f).value, ScanParams(params, f).value);
    }
  }

  /**
   * The scan fails exactly when some recognised param has no `value`
   * object.
   */
  lemma {:induction false} ScanFailsIff(params: seq<Param>, f: Fields)
    ensures ScanParams(params, f).Err? <==>
      exists i :: 0 <= i < |params| && Recognised(params[i]) && params[i].value.None?
    decreases |params|
  {
    if params != [] {
      var front, last := params[..|params| - 1], params[|params| - 1];
      ScanFailsIff(front, f);
      if exists i :: 0 <= i < |front| && Recognised(front[i]) && front[i].value.None? {
        var i :| 0 <= i < |front| && Recognised(front[i]) && front[i].value.None?;
        assert params[i] == front[i];
      } else if Recognised(last) && last.value.None? {
      } else {
        forall i | 0 <= i < |params| && Recognised(params[i]) ensures params[i].value.Some? {
          if i < |front| { assert params[i] == front[i]; }
        }
      }
    }
  }

  /** The inner loop over `params` of one listing. */
  method ReadParams(params: seq<Param>, f: Fields) returns (r: Result<Fields, ScrapeError>)
    ensures r == ScanParams(params, f)
  {
    var price, rent, furnished, rooms, area, elevator, pets := f.price, f.rent, f.furnished, f.rooms, f.area, f.elevator, f.pets;
    var floor, buildtype := f.floor, f.buildtype;
    for i := 0 to |params|
      invariant ScanParams(params[..i], f) == Ok(Fields(price, rent, furnished, rooms, area, elevator, pets, floor, buildtype))
    {
      var param := params[i];
      assert params[..i + 1][..i] == params[..i];
      if Recognised(param) && param.value.None? {
        ScanParamsPrefixErr(params, f, i + 1);
        return Err(MissingParamValue(param.key.value));
      }
      if param.key == Some("price") { price := param.value.value.labelText; }
      if param.key == Some("rent") { rent := param.value.value.labelText; }
      if param.key == Some("furniture") { furnished := param.value.value.labelText; }
      if param.key == Some("rooms") { rooms := param.value.value.labelText; }
      if param.key == Some("m") { area := param.value.value.labelText; }
      if param.key == Some("floor_select") { floor := Bound(param.value.value.labelText); }
      if param.key == Some("builttype") { buildtype := Bound(param.value.value.labelText); }
      if param.key == Some("winda") { elevator := param.value.value.labelText; }
      if param.key == Some("pets") { pets := param.value.value.labelText; }
    }
    assert params[..|params|] == params;
    r := Ok(Fields(price, rent, furnished, rooms, area, elevator, pets, floor, buildtype));
  }

  /** `map_url`: a Google Maps link, built only when both coordinates are truthy. */
  function MapUrl(lat: Option<Coord>, lon: Option<Coord>): (r: Option<string>)
    ensures r.Some? <==> NonZero(lat) && NonZero(lon)
    ensures r.Some? ==> r.value == "https://www.google.com/maps/@" + lat.value.text + "," + lon.value.text + ",20.53z?entry=ttu"
  {
    if NonZero(lat) && NonZero(lon) then
      Some("https://www.google.com/maps/@" + lat.value.text + "," + lon.value.text + ",20.53z?entry=ttu")
    else None
  }

  /** The offer built from a listing and its scanned fields. */
  function BuildOffer(d: RawOffer, g: Fields, description: string): Offer
    requires Truthy(d.title) && Truthy(d.url) && g.floor.Bound? && g.buildtype.Bound?
  {
    Offer(
      id := d.id, title := d.title.value, description := Some(description), url := d.url.value,
      mapUrl := MapUrl(d.lat, d.lon), district := d.district,
      price := g.price, rent := g.rent, pets := g.pets, furnished := g.furnished, rooms := g.rooms,
      floor := g.floor.labelText, area := g.area, elevator := g.elevator, buildtype := g.buildtype.labelText,
      createdAt := d.createdTime, rentedAt := None, status := d.status)
  }

  /** What every emitted offer satisfies. */
  predicate Emitted(o: Offer)
  {
    o.title != "" && o.url != "" && o.rentedAt.None?
  }

  /**
   * One listing: scan its params from the carried fields, then skip it when
   * its title or URL is falsy, otherwise build its offer (which reads
   * `floor` and `buildtype`, raising if either was never assigned). The
   * carry is updated even for a skipped listing.
   */
  function ExtractOffer(d: RawOffer, c: Carry, htmlText: string -> string): (r: Result<(Option<Offer>, Carry), ScrapeError>)
    ensures r.Err? ==> r.error.MissingParamValue? || r.error.UnboundLocal?
    ensures r.Ok? ==> (r.value.0.Some? <==> Truthy(d.title) && Truthy(d.url))
    ensures r.Ok? && r.value.0.Some? ==>
      var o := r.value.0.value;
      Emitted(o) && Some(o.title) == d.title && Some(o.url) == d.url && o.id == d.id
  {
    match ScanParams(d.params, FreshFields(c))
    case Err(e) => Err(e)
    case Ok(g) =>
      var next := Carry(g.floor, g.buildtype);
      if !Truthy(d.title) || !Truthy(d.url) then Ok((None, next))
      else if g.floor.Unbound? then Err(UnboundLocal("floor"))
      else if g.buildtype.Unbound? then Err(UnboundLocal("buildtype"))
      else Ok((Some(BuildOffer(d, g, htmlText(d.description))), next))
  }

  /**
   * The fields of an emitted offer: each param-driven field is the label of
   * the last param with its key (`None` for the seven reset fields, the
   * carried value for `floor` and `buildtype` when no param has the key); the
   * map link is built from the coordinates; the rest is copied from the
   * listing.
   */
  lemma ExtractedOfferFields(d: RawOffer, c: Carry, htmlText: string -> string)
    requires ExtractOffer(d, c, htmlText).Ok? && ExtractOffer(d, c, htmlText).value.0.Some?
    ensures var o := ExtractOffer(d, c, htmlText).value.0.value;
      && o.price == Override(LastLabel(d.params, "price"), None)
      && o.rent == Override(LastLabel(d.params, "rent"), None)
      && o.furnished == Override(LastLabel(d.params, "furniture"), None)
      && o.rooms == Override(LastLabel(d.params, "rooms"), None)
      && o.area == Override(LastLabel(d.params, "m"), None)
      && o.elevator == Override(LastLabel(d.params, "winda"), None)
      && o.pets == Override(LastLabel(d.params, "pets"), None)
      && Bound(o.floor) == OverrideSlot(LastLabel(d.params, "floor_select"), c.floor)
      && Bound(o.buildtype) == OverrideSlot(LastLabel(d.params, "builttype"), c.buildtype)
      && o.mapUrl == MapUrl(d.lat, d.lon)
      && o.district == d.district && o.createdAt == d.createdTime && o.status == d.status
      && o.description == Some(htmlText(d.description))
  {
    ScanLastWins(d.params, FreshFields(c));
  }

  /**
   * What a listing hands on to the next: `floor` and `buildtype` as its scan
   * left them, whether or not the listing was emitted.
   */
  lemma ExtractedCarry(d: RawOffer, c: Carry, htmlText: string -> string)
    requires ExtractOffer(d, c, htmlText).Ok?
    ensures ExtractOffer(d, c, htmlText).value.1 ==
      Carry(OverrideSlot(LastLabel(d.params, "floor_select"), c.floor),
            OverrideSlot(LastLabel(d.params, "builttype"), c.buildtype))
  {
    ScanLastWins(d.params, FreshFields(c));
  }

  /** The accepted offers of one page's `data`, in order, and the carry after it. */
  function ScrapePage(data: seq<RawOffer>, c: Carry, htmlText: string -> string): (r: Result<(seq<Offer>, Carry), ScrapeError>)
    ensures r.Ok? ==> forall o :: o in r.value.0 ==> Emitted(o)
    ensures r.Err? ==> r.error.MissingParamValue? || r.error.UnboundLocal?
    decreases |data|
  {
    if data == [] then Ok(([], c))
    else
      match ScrapePage(data[..|data| - 1], c, htmlText)
      case Err(e) => Err(e)
      case Ok((offers, c1)) =>
        match ExtractOffer(data[|data| - 1], c1, htmlText)
        case Err(e) => Err(e)
        case Ok((o, c2)) => Ok((offers + (if o.Some? then [o.value] else []), c2))
  }

  lemma {:induction false} ScrapePagePrefixErr(data: seq<RawOffer>, c: Carry, htmlText: string -> string, i: nat)
    requires i <= |data| && ScrapePage(data[..i], c, htmlText).Err?
    ensures ScrapePage(data, c, htmlText) == ScrapePage(data[..i], c, htmlText)
    decreases |data|
  {
    if i < |data| {
      var front := data[..|data| - 1];
      assert front[..i] == data[..i];
      ScrapePagePrefixErr(front, c, htmlText, i);
    } else {
      assert data[..i] == data;
    }
  }

  /** The loop over one page's `data`. */
  method ScrapePageData(data: seq<RawOffer>, c: Carry, htmlText: string -> string)
    returns (r: Result<(seq<Offer>, Carry), ScrapeError>)
    ensures r == ScrapePage(data, c, htmlText)
  {
    var offers: seq<Offer> := [];
    var carry := c;
    for i := 0 to |data|
      invariant ScrapePage(data[..i], c, htmlText) == Ok((offers, carry))
    {
      var d := data[i];
      assert data[..i + 1][..i] == data[..i];
      var description := htmlText(d.description);
      var scanned := ReadParams(d.params, FreshFields(carry));
      if scanned.Err? {
        ScrapePagePrefixErr(data, c, htmlText, i + 1);
        return Err(scanned.error);
      }
      var g := scanned.value;
      carry := Carry(g.floor, g.buildtype);
      if !Truthy(d.title) || !Truthy(d.url) {
        assert offers + [] == offers;
        continue;
      }
      if g.floor.Unbound? {
        ScrapePagePrefixErr(data, c, htmlText, i + 1);
        return Err(UnboundLocal("floor"));
      }
      if g.buildtype.Unbound? {
        ScrapePagePrefixErr(data, c, htmlText, i + 1);
        return Err(UnboundLocal("buildtype"));
      }
      offers := offers + [BuildOffer(d, g, description)];
    }
    assert data[..|data|] == data;
    r := Ok((offers, carry));
  }

  /** `get_next_page_url`: the `href` of a truthy `links.next`, otherwise nothing. */
  function GetNextPageUrl(links: NextLink): (r: Option<string>)
    ensures links.NoNext? ==> r.None?
    ensures links.NextObject? ==> r == links.href
  {
    match links
    case NoNext => None
    case NextObject(href) => href
  }

  /** The carry before the first listing: neither `floor` nor `buildtype` assigned. */
  const Initial := Carry(Unbound, Unbound)

  /**
   * The walk from `url`: fetch the page; a falsy page ends the walk; otherwise
   * its accepted offers are followed by those of the pages after it, until a
   * page whose next-link is falsy.
   */
  function ScrapeFrom(web: map<string, Page>, url: string, c: Carry, fuel: nat, htmlText: string -> string)
    : (r: Result<seq<Offer>, ScrapeError>)
    ensures r.Ok? ==> forall o :: o in r.value ==> Emitted(o)
    decreases fuel
  {
    if fuel == 0 then Err(PageLimit)
    else if url !in web then Err(RequestFailed(url))
    else
      match web[url]
      case FalsyPage => Ok([])
      case PageBody(data, links) =>
        match ScrapePage(data, c, htmlText)
        case Err(e) => Err(e)
        case Ok((offers, c1)) =>
          if links.None? then Err(MissingLinks(url))
          else
            var next := GetNextPageUrl(links.value);
            if !Truthy(next) then Ok(offers)
            else
              match ScrapeFrom(web, next.value, c1, fuel - 1, htmlText)
              case Err(e) => Err(e)
              case Ok(rest) => Ok(offers + rest)
  }

  /**
   * How one page ends or continues the walk: a falsy page ends it with
   * nothing more; a page whose next-link is falsy ends it with that page's
   * offers; otherwise that page's offers come before those of the next page.
   */
  lemma WalkStep(web: map<string, Page>, url: string, c: Carry, fuel: nat, htmlText: string -> string)
    requires fuel > 0 && url in web
    ensures web[url].FalsyPage? ==> ScrapeFrom(web, url, c, fuel, htmlText) == Ok([])
    ensures web[url].PageBody? && web[url].links.Some? && ScrapePage(web[url].data, c, htmlText).Ok? ==>
      var (offers, c1) := ScrapePage(web[url].data, c, htmlText).value;
      var next := GetNextPageUrl(web[url].links.value);
      && (!Truthy(next) ==> ScrapeFrom(web, url, c, fuel, htmlText) == Ok(offers))
      && (Truthy(next) ==>
            ScrapeFrom(web, url, c, fuel, htmlText) == Prepend(offers, ScrapeFrom(web, next.value, c1, fuel - 1, htmlText)))
  {
  }

  /**
   * `OLX.scrape`: the `while True` loop over pages, fetching at most `fuel`
   * pages.
   */
  method Scrape(web: map<string, Page>, url: string, fuel: nat, htmlText: string -> string)
    returns (r: Result<seq<Offer>, ScrapeError>)
    ensures r == ScrapeFrom(web, url, Initial, fuel, htmlText)
    ensures r.Ok? ==> forall o :: o in r.value ==> Emitted(o)
  {
    var baseUrl := url;
    var offers: seq<Offer> := [];
    var carry := Initial;
    var pagesLeft := fuel;
    PrependNil(ScrapeFrom(web, url, Initial, fuel, htmlText));
    while true
      invariant Prepend(offers, ScrapeFrom(web, baseUrl, carry, pagesLeft, htmlText)) == ScrapeFrom(web, url, Initial, fuel, htmlText)
      decreases pagesLeft
    {
      if pagesLeft == 0 {
        return Err(PageLimit);
      }
      if baseUrl !in web {
        return Err(RequestFailed(baseUrl));
      }
      var page := web[baseUrl];
      if page.FalsyPage? {
        assert offers + [] == offers;
        break;
      }
      var scraped := ScrapePageData(page.data, carry, htmlText);
      if scraped.Err? {
        return Err(scraped.error);
      }
      ghost var before := offers;
      offers := offers + scraped.value.0;
      carry := scraped.value.1;
      if page.links.None? {
        return Err(MissingLinks(baseUrl));
      }
      var nextPageUrl := GetNextPageUrl(page.links.value);
      if !Truthy(nextPageUrl) {
        break;
      }
      PrependAssoc(before, scraped.value.0, ScrapeFrom(web, nextPageUrl.value, carry, pagesLeft - 1, htmlText));
      baseUrl := nextPageUrl.value;
      pagesLeft := pagesLeft - 1;
    }
    r := Ok(offers);
  }

  /**
   * `urls` is a finite chain of pages: each one is served, links to the next,
   * and the last one's next-link is falsy.
   */
  predicate IsChain(web: map<string, Page>, urls: seq<string>)
    decreases |urls|
  {
    && |urls| > 0
    && urls[0] in web && web[urls[0]].PageBody? && web[urls[0]].links.Some?
    && var next := GetNextPageUrl(web[urls[0]].links.value);
       if |urls| == 1 then !Truthy(next)
       else next == Some(urls[1]) && urls[1] != "" && IsChain(web, urls[1..])
  }

  /**
   * Pagination terminates on a finite chain: with a budget of at least one
   * request per page, the walk never runs out of budget, and its result does
   * not depend on how large the budget is.
   */
  lemma {:induction false} ChainWalkNeedsNoMoreFuel(web: map<string, Page>, urls: seq<string>, c: Carry,
                                                    fuel: nat, htmlText: string -> string)
    requires IsChain(web, urls) && fuel >= |urls|
    ensures ScrapeFrom(web, urls[0], c, fuel, htmlText) == ScrapeFrom(web, urls[0], c, |urls|, htmlText)
    ensures ScrapeFrom(web, urls[0], c, fuel, htmlText) != Err(PageLimit)
    decreases |urls|
  {
    var page := web[urls[0]];
    match ScrapePage(page.data, c, htmlText)
    case Err(e) =>
      assert ScrapeFrom(web, urls[0], c, fuel, htmlText) == Err(e);
      assert ScrapeFrom(web, urls[0], c, |urls|, htmlText) == Err(e);
    case Ok((offers, c1)) =>
      if |urls| > 1 {
        ChainWalkNeedsNoMoreFuel(web, urls[1..], c1, fuel - 1, htmlText);
        ChainWalkNeedsNoMoreFuel(web, urls[1..], c1, |urls| - 1, htmlText);
      }
  }

  /**
   * `floor` and `buildtype` are not reset per listing: an emitted offer whose
   * listing has no `floor_select` param gets the floor of an earlier listing,
   * while a field that is reset (the price) is `None` when no `price` param
   * is present.
   */
  lemma FloorCarriesOver(d: RawOffer, c: Carry, htmlText: string -> string)
    requires ExtractOffer(d, c, htmlText).Ok? && ExtractOffer(d, c, htmlText).value.0.Some?
    requires LastLabel(d.params, "floor_select").None? && LastLabel(d.params, "price").None?
    ensures c.floor.Bound?
    ensures ExtractOffer(d, c, htmlText).value.0.value.floor == c.floor.labelText
    ensures ExtractOffer(d, c, htmlText).value.0.value.price == None
  {
    ScanLastWins(d.params, FreshFields(c));
  }

  /**
   * An accepted listing read before any listing set `floor` makes the scrape
   * raise, as `floor` is then an unassigned local.
   */
  lemma UnboundFloorRaises(d: RawOffer, htmlText: string -> string)
    requires Truthy(d.title) && Truthy(d.url)
    requires ScanParams(d.params, FreshFields(Initial)).Ok?
    requires LastLabel(d.params, "floor_select").None?
    ensures ExtractOffer(d, Initial, htmlText) == Err(UnboundLocal("floor"))
  {
    ScanLastWins(d.params, FreshFields(Initial));
  }
}
