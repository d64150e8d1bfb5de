/**
 * Reconciling a scraped batch with the stored table, and one whole run of
 * the job (scraper/main.py, `main`).
 *
 * `today` is a parameter, and `dateOf` stands for parsing a creation
 * timestamp and taking its calendar date (`None` where parsing raises).
 */
module Merge {
  import opened Wrappers
  import opened Offers
  import opened Table
  import Utils
  import Olx
  import RentedStatus

  datatype MergeError =
    | UnparsableCreatedAt(url: string)  // `datetime.fromisoformat` raised (or `created_at` is None)
    | MissingDescription(url: string)   // `.replace` called on a None description
    | NoNewOffers                       // `df` read while unbound

  /** `s.replace("\n", " ").replace("\r", " ")`. */
  function FlattenLines(s: string): (r: string)
    ensures |r| == |s|
    ensures forall i :: 0 <= i < |s| ==> r[i] == if s[i] == '\n' || s[i] == '\r' then ' ' else s[i]
    decreases |s|
  {
    if s == [] then []
    else
      var c := s[|s| - 1];
      FlattenLines(s[..|s| - 1]) + [if c == '\n' || c == '\r' then ' ' else c]
  }

  /** The calendar date of an offer's creation timestamp, if it parses. */
  function CreatedOn(o: Offer, dateOf: string -> Option<Date>): Option<Date>
  {
    if o.createdAt.Some? then dateOf(o.createdAt.value) else None
  }

  /** The row appended for a new offer: no `rented_at` yet, newlines flattened. */
  function ToRow(o: Offer): (r: Row)
    requires o.description.Some?
    ensures r.id == o.id && r.title == o.title && r.url == o.url
    ensures r.description == FlattenLines(o.description.value)
    ensures '\n' !in r.description && '\r' !in r.description
    ensures r.price == o.price && r.rent == o.rent && r.pets == o.pets && r.furnished == o.furnished
    ensures r.rooms == o.rooms && r.area == o.area && r.elevator == o.elevator
    ensures r.mapUrl == o.mapUrl && r.district == o.district && r.createdAt == o.createdAt && r.status == o.status
    ensures r.rentedAt.None?
  {
    var d := FlattenLines(o.description.value);
    assert '\n' !in d && '\r' !in d by {
      forall i | 0 <= i < |d| ensures d[i] != '\n' && d[i] != '\r' { }
    }
    Row(
      id := o.id, title := o.title, description := FlattenLines(o.description.value), url := o.url,
      price := o.price, rent := o.rent, pets := o.pets, furnished := o.furnished, rooms := o.rooms,
      area := o.area, elevator := o.elevator, mapUrl := o.mapUrl, district := o.district,
      createdAt := o.createdAt, rentedAt := None, status := o.status)
  }

  /**
   * The new rows for a batch, in batch order: every offer's creation date is
   * parsed first (failing the run if it does not parse); an offer whose URL
   * is already stored is skipped; one created today becomes a new row.
   */
  function NewRows(existingUrls: set<string>, offers: seq<Offer>, today: Date, dateOf: string -> Option<Date>)
    : (r: Result<seq<Row>, MergeError>)
    ensures r.Err? ==> r.error.UnparsableCreatedAt? || r.error.MissingDescription?
    decreases |offers|
  {
    if offers == [] then Ok([])
    else
      var o := offers[0];
      var rest := NewRows(existingUrls, offers[1..], today, dateOf);
      match CreatedOn(o, dateOf)
      case None => Err(UnparsableCreatedAt(o.url))
      case Some(created) =>
        if o.url in existingUrls || created != today then rest
        else if o.description.None? then Err(MissingDescription(o.url))
        else Prepend([ToRow(o)], rest)
  }

  /** An offer is admitted when its URL is not stored yet and it was created today. */
  predicate Admitted(existingUrls: set<string>, o: Offer, today: Date, dateOf: string -> Option<Date>)
  {
    o.url !in existingUrls && CreatedOn(o, dateOf) == Some(today)
  }

  /** The admitted offers of a batch, in batch order. */
  function AdmittedOffers(existingUrls: set<string>, offers: seq<Offer>, today: Date, dateOf: string -> Option<Date>)
    : seq<Offer>
    decreases |offers|
  {
    if offers == [] then []
    else
      (if Admitted(existingUrls, offers[0], today, dateOf) then [offers[0]] else [])
      + AdmittedOffers(existingUrls, offers[1..], today, dateOf)
  }

  /** `row` is the row appended for the admitted offer `o`. */
  predicate RowOf(o: Offer, row: Row)
  {
    o.description.Some? && row == ToRow(o)
  }

  /**
   * A batch is appended exactly when it is admitted: on success the new rows
   * are the admitted offers, in batch order, each turned into a fresh row.
   */
  lemma {:induction false} NewRowsAreAdmittedOffers(existingUrls: set<string>, offers: seq<Offer>, today: Date,
                                                    dateOf: string -> Option<Date>)
    requires NewRows(existingUrls, offers, today, dateOf).Ok?
    ensures var rows := NewRows(existingUrls, offers, today, dateOf).value;
      var admitted := AdmittedOffers(existingUrls, offers, today, dateOf);
      |rows| == |admitted| && forall k :: 0 <= k < |rows| ==> RowOf(admitted[k], rows[k])
    decreases |offers|
  {
    if offers != [] {
      var o, tail := offers[0], offers[1..];
      NewRowsAreAdmittedOffers(existingUrls, tail, today, dateOf);
      var rest := NewRows(existingUrls, tail, today, dateOf).value;
      var adm := AdmittedOffers(existingUrls, tail, today, dateOf);
      if Admitted(existingUrls, o, today, dateOf) {
        var rows, admitted := [ToRow(o)] + rest, [o] + adm;
        assert NewRows(existingUrls, offers, today, dateOf).value == rows;
        assert AdmittedOffers(existingUrls, offers, today, dateOf) == admitted;
        forall k | 0 <= k < |rows| ensures RowOf(admitted[k], rows[k]) {
          if k > 0 {
            assert rows[k] == rest[k - 1] && admitted[k] == adm[k - 1];
          }
        }
      } else {
        assert NewRows(existingUrls, offers, today, dateOf).value == rest;
        assert AdmittedOffers(existingUrls, offers, today, dateOf) == adm;
      }
    }
  }

  /**
   * The run fails in the merge exactly when some offer's creation date does
   * not parse, or some admitted offer has no description.
   */
  lemma {:induction false} NewRowsFailsIff(existingUrls: set<string>, offers: seq<Offer>, today: Date,
                                           dateOf: string -> Option<Date>)
    ensures NewRows(existingUrls, offers, today, dateOf).Err? <==>
      exists i :: 0 <= i < |offers| &&
        (CreatedOn(offers[i], dateOf).None? ||
         (Admitted(existingUrls, offers[i], today, dateOf) && offers[i].description.None?))
    decreases |offers|
  {
    if offers != [] {
      var tail := offers[1..];
      NewRowsFailsIff(existingUrls, tail, today, dateOf);
      if exists i :: 0 <= i < |tail| &&
           (CreatedOn(tail[i], dateOf).None? ||
            (Admitted(existingUrls, tail[i], today, dateOf) && tail[i].description.None?)) {
        var i :| 0 <= i < |tail| &&
           (CreatedOn(tail[i], dateOf).None? ||
            (Admitted(existingUrls, tail[i], today, dateOf) && tail[i].description.None?));
        assert offers[i + 1] == tail[i];
      } else {
        forall i | 1 <= i < |offers|
          ensures !(CreatedOn(offers[i], dateOf).None? ||
                    (Admitted(existingUrls, offers[i], today, dateOf) && offers[i].description.None?))
        {
          assert offers[i] == tail[i - 1];
        }
      }
    }
  }

  lemma RowUrlsCons(r: Row, rest: seq<Row>)
    ensures RowUrls([r] + rest) == {r.url} + RowUrls(rest)
  {
    assert forall x :: x in [r] + rest <==> x == r || x in rest;
  }

  /**
   * Once every URL a batch admitted is stored, the same batch admits
   * nothing more.
   */
  lemma {:induction false} NewRowsOnceStored(existingUrls: set<string>, stored: set<string>, offers: seq<Offer>,
                                             today: Date, dateOf: string -> Option<Date>)
    requires NewRows(existingUrls, offers, today, dateOf).Ok?
    requires existingUrls + RowUrls(NewRows(existingUrls, offers, today, dateOf).value) <= stored
    ensures NewRows(stored, offers, today, dateOf) == Ok([])
    decreases |offers|
  {
    if offers != [] {
      var o := offers[0];
      var rest := NewRows(existingUrls, offers[1..], today, dateOf);
      if o.url !in existingUrls && CreatedOn(o, dateOf) == Some(today) {
        RowUrlsCons(ToRow(o), rest.value);
      }
      NewRowsOnceStored(existingUrls, stored, offers[1..], today, dateOf);
    }
  }

  lemma UrlSetTail(offers: seq<Offer>)
    requires offers != []
    ensures UrlSet(offers[1..]) <= UrlSet(offers) && offers[0].url in UrlSet(offers)
  {
    forall u | u in UrlSet(offers[1..]) ensures u in UrlSet(offers) {
      var x :| x in offers[1..] && x.url == u;
      assert x in offers;
    }
    assert offers[0] in offers;
  }

  lemma DistinctTail(offers: seq<Offer>)
    requires offers != [] && DistinctUrls(offers)
    ensures DistinctUrls(offers[1..]) && offers[0].url !in UrlSet(offers[1..])
  {
    var tail := offers[1..];
    forall i, j | 0 <= i < j < |tail| ensures tail[i].url != tail[j].url {
      assert tail[i] == offers[i + 1] && tail[j] == offers[j + 1];
    }
    forall x | x in tail ensures x.url != offers[0].url {
      var j :| 0 <= j < |tail| && tail[j] == x;
      assert offers[j + 1] == x;
    }
  }

  lemma DistinctRowsCons(row: Row, rest: seq<Row>)
    requires row.url !in RowUrls(rest) && DistinctRowUrls(rest)
    ensures DistinctRowUrls([row] + rest)
  {
    var rows := [row] + rest;
    forall i, j | 0 <= i < j < |rows| ensures rows[i].url != rows[j].url {
      if i == 0 {
        assert rows[j] in rest;
      } else {
        assert rows[i] == rest[i - 1] && rows[j] == rest[j - 1];
      }
    }
  }

  /** The new rows' URLs come from the batch and are not stored yet. */
  lemma {:induction false} NewRowsUrls(existingUrls: set<string>, offers: seq<Offer>, today: Date,
                                       dateOf: string -> Option<Date>)
    requires NewRows(existingUrls, offers, today, dateOf).Ok?
    ensures RowUrls(NewRows(existingUrls, offers, today, dateOf).value) <= UrlSet(offers) - existingUrls
    decreases |offers|
  {
    if offers != [] {
      var o, tail := offers[0], offers[1..];
      NewRowsUrls(existingUrls, tail, today, dateOf);
      UrlSetTail(offers);
      if o.url !in existingUrls && CreatedOn(o, dateOf) == Some(today) {
        RowUrlsCons(ToRow(o), NewRows(existingUrls, tail, today, dateOf).value);
      }
    }
  }

  /** When the batch's URLs are distinct, so are the new rows' URLs. */
  lemma {:induction false} NewRowsDistinct(existingUrls: set<string>, offers: seq<Offer>, today: Date,
                                           dateOf: string -> Option<Date>)
    requires NewRows(existingUrls, offers, today, dateOf).Ok? && DistinctUrls(offers)
    ensures DistinctRowUrls(NewRows(existingUrls, offers, today, dateOf).value)
    decreases |offers|
  {
    if offers != [] {
      var o, tail := offers[0], offers[1..];
      DistinctTail(offers);
      NewRowsDistinct(existingUrls, tail, today, dateOf);
      if o.url !in existingUrls && CreatedOn(o, dateOf) == Some(today) {
        NewRowsUrls(existingUrls, tail, today, dateOf);
        DistinctRowsCons(ToRow(o), NewRows(existingUrls, tail, today, dateOf).value);
      }
    }
  }

  /**
   * The loop of `main` that builds `new_offers`: one pass over the batch
   * against the URLs of the stored table.
   */
  method CollectNewOffers(existing: seq<Row>, offers: seq<Offer>, today: Date, dateOf: string -> Option<Date>)
    returns (r: Result<seq<Row>, MergeError>)
    ensures r == NewRows(RowUrls(existing), offers, today, dateOf)
  {
    var existingUrls := RowUrls(existing);
    var newOffers: seq<Row> := [];
    assert offers[0..] == offers;
    PrependNil(NewRows(existingUrls, offers, today, dateOf));
    for i := 0 to |offers|
      invariant Prepend(newOffers, NewRows(existingUrls, offers[i..], today, dateOf)) ==
                NewRows(existingUrls, offers, today, dateOf)
    {
      var offer := offers[i];
      assert offers[i..][1..] == offers[i + 1..];
      var createdAt := CreatedOn(offer, dateOf);
      if createdAt.None? {
        return Err(UnparsableCreatedAt(offer.url));
      }
      if offer.url in existingUrls {
        continue;
      } else if createdAt.value == today {
        if offer.description.None? {
          return Err(MissingDescription(offer.url));
        }
        PrependAssoc(newOffers, [ToRow(offer)], NewRows(existingUrls, offers[i + 1..], today, dateOf));
        newOffers := newOffers + [ToRow(offer)];
      }
    }
    assert offers[|offers|..] == [];
    assert newOffers + [] == newOffers;
    r := Ok(newOffers);
  }

  /**
   * The table after the merge, as `main` is written: `df` is bound only when
   * there is at least one new row, so a batch with none fails.
   */
  function MergeBatchAsWritten(existing: seq<Row>, batch: seq<Offer>, today: Date, dateOf: string -> Option<Date>)
    : (r: Result<seq<Row>, MergeError>)
    ensures r.Ok? ==> r == MergeBatch(existing, batch, today, dateOf) && |r.value| > |existing|
    ensures r == Err(NoNewOffers) <==> MergeBatch(existing, batch, today, dateOf) == Ok(existing)
    ensures r.Err? && r != Err(NoNewOffers) ==> r == MergeBatch(existing, batch, today, dateOf)
  {
    match NewRows(RowUrls(existing), batch, today, dateOf)
    case Err(e) => Err(e)
    case Ok(rows) =>
      if |rows| > 0 then Ok(existing + rows)
      else
        assert existing + rows == existing;
        Err(NoNewOffers)
  }

  /**
   * The table after the merge: the stored rows in their order, followed by
   * the new rows (the stored table itself when there are none).
   */
  function MergeBatch(existing: seq<Row>, batch: seq<Offer>, today: Date, dateOf: string -> Option<Date>)
    : (r: Result<seq<Row>, MergeError>)
    ensures r.Ok? ==> |r.value| >= |existing| && r.value[..|existing|] == existing
    ensures r.Ok? ==> forall i :: |existing| <= i < |r.value| ==> r.value[i].rentedAt.None?
    ensures r.Ok? ==>
      var admitted := AdmittedOffers(RowUrls(existing), batch, today, dateOf);
      |r.value| == |existing| + |admitted| &&
      forall k :: 0 <= k < |admitted| ==> RowOf(admitted[k], r.value[|existing| + k])
  {
    match NewRows(RowUrls(existing), batch, today, dateOf)
    case Err(e) => Err(e)
    case Ok(rows) =>
      NewRowsAreAdmittedOffers(RowUrls(existing), batch, today, dateOf);
      Ok(existing + rows)
  }

  /** Merging the same batch again adds no rows. */
  lemma MergeBatchIdempotent(existing: seq<Row>, batch: seq<Offer>, today: Date, dateOf: string -> Option<Date>)
    requires MergeBatch(existing, batch, today, dateOf).Ok?
    ensures var merged := MergeBatch(existing, batch, today, dateOf).value;
      MergeBatch(merged, batch, today, dateOf) == Ok(merged)
  {
    var rows := NewRows(RowUrls(existing), batch, today, dateOf).value;
    var merged := existing + rows;
    assert RowUrls(merged) == RowUrls(existing) + RowUrls(rows) by {
      assert forall x :: x in merged <==> x in existing || x in rows;
    }
    NewRowsOnceStored(RowUrls(existing), RowUrls(merged), batch, today, dateOf);
    assert merged + [] == merged;
  }

  /**
   * As written, running the merge again with the same batch fails: the
   * second pass finds no new offer and `df` is never bound.
   */
  lemma RerunAsWrittenFails(existing: seq<Row>, batch: seq<Offer>, today: Date, dateOf: string -> Option<Date>)
    requires MergeBatchAsWritten(existing, batch, today, dateOf).Ok?
    ensures var merged := MergeBatchAsWritten(existing, batch, today, dateOf).value;
      MergeBatchAsWritten(merged, batch, today, dateOf) == Err(NoNewOffers)
  {
    var rows := NewRows(RowUrls(existing), batch, today, dateOf).value;
    var merged := existing + rows;
    assert RowUrls(merged) == RowUrls(existing) + RowUrls(rows) by {
      assert forall x :: x in merged <==> x in existing || x in rows;
    }
    NewRowsOnceStored(RowUrls(existing), RowUrls(merged), batch, today, dateOf);
  }

  /** As written, an empty scrape result fails the run whatever the stored table holds. */
  lemma EmptyBatchAsWrittenFails(existing: seq<Row>, today: Date, dateOf: string -> Option<Date>)
    ensures MergeBatchAsWritten(existing, [], today, dateOf) == Err(NoNewOffers)
    ensures MergeBatch(existing, [], today, dateOf) == Ok(existing)
  {
    assert existing + [] == existing;
  }

  /** URL stays the table's key: merging a batch with distinct URLs keeps the table's URLs distinct. */
  lemma MergeKeepsUrlsDistinct(existing: seq<Row>, batch: seq<Offer>, today: Date, dateOf: string -> Option<Date>)
    requires DistinctRowUrls(existing) && DistinctUrls(batch)
    requires MergeBatch(existing, batch, today, dateOf).Ok?
    ensures DistinctRowUrls(MergeBatch(existing, batch, today, dateOf).value)
  {
    var rows := NewRows(RowUrls(existing), batch, today, dateOf).value;
    NewRowsUrls(RowUrls(existing), batch, today, dateOf);
    NewRowsDistinct(RowUrls(existing), batch, today, dateOf);
    var merged := existing + rows;
    forall i, j | 0 <= i < j < |merged| ensures merged[i].url != merged[j].url {
      if j < |existing| {
        assert merged[i] == existing[i] && merged[j] == existing[j];
      } else if i < |existing| {
        assert merged[i] in existing && merged[j] == rows[j - |existing|];
        assert merged[i].url in RowUrls(existing);
        assert rows[j - |existing|] in rows;
      } else {
        assert merged[i] == rows[i - |existing|] && merged[j] == rows[j - |existing|];
      }
    }
  }

  // ---------------------------------------------------------------------------
  // One run of the job
  // ---------------------------------------------------------------------------

  datatype SyncError = ScrapeFailed(scrapeError: Olx.ScrapeError) | MergeFailed(mergeError: MergeError)

  /** The status lookups of a table's rows: the network answers by offer id. */
  function LookupsFor(t: seq<Row>, lookup: int -> RentedStatus.Attempts): (l: seq<RentedStatus.Attempts>)
    ensures |l| == |t|
  {
    seq(|t|, i requires 0 <= i < |t| => lookup(t[i].id))
  }

  /** Rows in index order: one order in which the pool may complete. */
  function InIndexOrder(n: nat): (order: seq<nat>)
    ensures |order| == n && forall k :: 0 <= k < n ==> order[k] == k
    ensures RentedStatus.IsCompletionOrder(order, n)
  {
    if n == 0 then []
    else
      var order := InIndexOrder(n - 1) + [n - 1];
      assert forall i :: 0 <= i < n ==> i in order by {
        forall i | 0 <= i < n ensures i in order {
          assert order[i] == i;
        }
      }
      order
  }

  /** Re-checking every row of a table: `update_rented_status` with the lookups by offer id. */
  function Recheck(t: seq<Row>, lookup: int -> RentedStatus.Attempts, today: Date): (r: seq<Row>)
    ensures |r| == |t|
  {
    RentedStatus.MarkRented(t, RentedStatus.Verdicts(t, LookupsFor(t, lookup)), today)
  }

  /**
   * The table one run leaves behind, as `main` is written: scrape,
   * de-duplicate, merge (failing when no offer is new, as `df` is then
   * unbound), then re-check every row without a `rented_at`.
   */
  function SyncResult(existing: seq<Row>, web: map<string, Olx.Page>, startUrl: string, fuel: nat,
                      htmlText: string -> string, today: Date, dateOf: string -> Option<Date>,
                      lookup: int -> RentedStatus.Attempts): Result<seq<Row>, SyncError>
  {
    match Olx.ScrapeFrom(web, startUrl, Olx.Initial, fuel, htmlText)
    case Err(e) => Err(ScrapeFailed(e))
    case Ok(scraped) =>
      match MergeBatchAsWritten(existing, Utils.Dedup(scraped), today, dateOf)
      case Err(e) => Err(MergeFailed(e))
      case Ok(merged) => Ok(Recheck(merged, lookup, today))
  }

  /**
   * The run as evidently intended: with no new offer the stored table itself
   * is re-checked and saved.
   */
  function CorrectedSyncResult(existing: seq<Row>, web: map<string, Olx.Page>, startUrl: string, fuel: nat,
                               htmlText: string -> string, today: Date, dateOf: string -> Option<Date>,
                               lookup: int -> RentedStatus.Attempts): Result<seq<Row>, SyncError>
  {
    match Olx.ScrapeFrom(web, startUrl, Olx.Initial, fuel, htmlText)
    case Err(e) => Err(ScrapeFailed(e))
    case Ok(scraped) =>
      match MergeBatch(existing, Utils.Dedup(scraped), today, dateOf)
      case Err(e) => Err(MergeFailed(e))
      case Ok(merged) => Ok(Recheck(merged, lookup, today))
  }

  /**
   * The corrected run differs from the run as written only where the latter
   * fails on an unbound `df`: there it re-checks the stored table.
   */
  lemma CorrectedRunAgrees(existing: seq<Row>, web: map<string, Olx.Page>, startUrl: string, fuel: nat,
                           htmlText: string -> string, today: Date, dateOf: string -> Option<Date>,
                           lookup: int -> RentedStatus.Attempts)
    ensures var asWritten := SyncResult(existing, web, startUrl, fuel, htmlText, today, dateOf, lookup);
      var corrected := CorrectedSyncResult(existing, web, startUrl, fuel, htmlText, today, dateOf, lookup);
      && (asWritten == Err(MergeFailed(NoNewOffers)) ==> corrected == Ok(Recheck(existing, lookup, today)))
      && (asWritten != Err(MergeFailed(NoNewOffers)) ==> corrected == asWritten)
  {
  }

  /**
   * As written, a run whose first page is falsy (an empty scrape) fails on
   * the unbound `df`, whatever the stored table holds; the corrected run
   * re-checks the stored table.
   */
  lemma EmptyScrapeAsWrittenFails(existing: seq<Row>, web: map<string, Olx.Page>, startUrl: string, fuel: nat,
                                  htmlText: string -> string, today: Date, dateOf: string -> Option<Date>,
                                  lookup: int -> RentedStatus.Attempts)
    requires fuel > 0 && startUrl in web && web[startUrl] == Olx.FalsyPage
    ensures SyncResult(existing, web, startUrl, fuel, htmlText, today, dateOf, lookup) == Err(MergeFailed(NoNewOffers))
    ensures CorrectedSyncResult(existing, web, startUrl, fuel, htmlText, today, dateOf, lookup) ==
      Ok(Recheck(existing, lookup, today))
  {
    assert Olx.ScrapeFrom(web, startUrl, Olx.Initial, fuel, htmlText) == Ok([]);
    assert Utils.Dedup([]) == [];
    EmptyBatchAsWrittenFails(existing, today, dateOf);
  }

  /**
   * `main`: one run of the job on an in-memory table (loading and saving the
   * CSV file are outside the model). The pool is taken to complete in index
   * order; by `RentedStatus.CompletionOrderIrrelevant` any other order gives
   * the same table.
   */
  method Sync(existing: seq<Row>, web: map<string, Olx.Page>, startUrl: string, fuel: nat,
              htmlText: string -> string, today: Date, dateOf: string -> Option<Date>,
              lookup: int -> RentedStatus.Attempts) returns (r: Result<seq<Row>, SyncError>)
    ensures r == SyncResult(existing, web, startUrl, fuel, htmlText, today, dateOf, lookup)
    ensures r.Ok? ==> |r.value| > |existing|
  {
    var scraped := Olx.Scrape(web, startUrl, fuel, htmlText);
    if scraped.Err? {
      return Err(ScrapeFailed(scraped.error));
    }
    var offers, removed := Utils.RemoveDuplicateOffers(scraped.value);
    var newOffers := CollectNewOffers(existing, offers, today, dateOf);
    if newOffers.Err? {
      return Err(MergeFailed(newOffers.error));
    }
    if |newOffers.value| == 0 {
      return Err(MergeFailed(NoNewOffers));
    }
    var merged := existing + newOffers.value;
    var df := new Row[|merged|](i requires 0 <= i < |merged| => merged[i]);
    assert df[..] == merged;
    var rentedCount := RentedStatus.UpdateRentedStatus(df, LookupsFor(merged, lookup), InIndexOrder(|merged|), today);
    r := Ok(df[..]);
  }

  /**
   * What a run keeps of the stored table: no row is dropped or moved, and a
   * row that already had a `rented_at` comes out unchanged.
   */
  lemma SyncKeepsStoredRows(existing: seq<Row>, web: map<string, Olx.Page>, startUrl: string, fuel: nat,
                            htmlText: string -> string, today: Date, dateOf: string -> Option<Date>,
                            lookup: int -> RentedStatus.Attempts)
    requires SyncResult(existing, web, startUrl, fuel, htmlText, today, dateOf, lookup).Ok?
    ensures var t := SyncResult(existing, web, startUrl, fuel, htmlText, today, dateOf, lookup).value;
      && |t| >= |existing|
      && forall i :: 0 <= i < |existing| ==>
           t[i].url == existing[i].url && t[i].id == existing[i].id &&
           (existing[i].rentedAt.Some? ==> t[i] == existing[i])
  {
    var scraped := Olx.ScrapeFrom(web, startUrl, Olx.Initial, fuel, htmlText).value;
    var merged := MergeBatchAsWritten(existing, Utils.Dedup(scraped), today, dateOf).value;
    assert forall i :: 0 <= i < |existing| ==> merged[i] == existing[i] by {
      forall i | 0 <= i < |existing| ensures merged[i] == existing[i] {
        assert merged[..|existing|][i] == merged[i];
      }
    }
  }

  /**
   * A run keeps URL the table's key: if the stored rows have distinct URLs,
   * so does the table the run leaves behind.
   */
  lemma SyncKeepsUrlsDistinct(existing: seq<Row>, web: map<string, Olx.Page>, startUrl: string, fuel: nat,
                              htmlText: string -> string, today: Date, dateOf: string -> Option<Date>,
                              lookup: int -> RentedStatus.Attempts)
    requires DistinctRowUrls(existing)
    requires SyncResult(existing, web, startUrl, fuel, htmlText, today, dateOf, lookup).Ok?
    ensures DistinctRowUrls(SyncResult(existing, web, startUrl, fuel, htmlText, today, dateOf, lookup).value)
  {
    var scraped := Olx.ScrapeFrom(web, startUrl, Olx.Initial, fuel, htmlText).value;
    var batch := Utils.Dedup(scraped);
    Utils.DedupDistinct(scraped);
    MergeKeepsUrlsDistinct(existing, batch, today, dateOf);
    var merged := MergeBatchAsWritten(existing, batch, today, dateOf).value;
    var t := Recheck(merged, lookup, today);
    assert forall i :: 0 <= i < |t| ==> t[i].url == merged[i].url;
  }
}
