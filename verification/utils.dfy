/**
 * URL validity test and first-wins de-duplication of scraped offers
 * (scraper/utils.py).
 */
module Utils {
  import opened Wrappers
  import opened Offers

  // ---------------------------------------------------------------------------
  // is_valid_url
  // ---------------------------------------------------------------------------

  /** `s.startswith(p)`. */
  predicate StartsWith(s: string, p: string)
  {
    |p| <= |s| && s[..|p|] == p
  }

  /** `t` occurs in `s` starting at position `i`. */
  predicate OccursAt(s: string, t: string, i: int)
  {
    0 <= i && i + |t| <= |s| && s[i..i + |t|] == t
  }

  lemma OccursAtShift(s: string, t: string, i: int)
    requires |s| > 0 && i >= 0
    ensures OccursAt(s[1..], t, i) <==> OccursAt(s, t, i + 1)
  {
    if 0 <= i && i + |t| <= |s| - 1 {
      assert s[1..][i..i + |t|] == s[i + 1..i + 1 + |t|];
    }
  }

  /** `t in s` on strings, as a left-to-right scan of `s`. */
  function Contains(s: string, t: string): (r: bool)
    ensures r <==> exists i :: OccursAt(s, t, i)
    decreases |s|
  {
    if StartsWith(s, t) then
      assert OccursAt(s, t, 0);
      true
    else if |s| <= |t| then
      assert forall i :: !OccursAt(s, t, i);
      false
    else
      var r := Contains(s[1..], t);
      assert r <==> exists i :: OccursAt(s, t, i) by {
        if r {
          var i :| OccursAt(s[1..], t, i);
          OccursAtShift(s, t, i);
        } else {
          forall i | OccursAt(s, t, i) ensures false {
            assert i != 0;
            OccursAtShift(s, t, i - 1);
          }
        }
      }
      r
  }

  /**
   * `is_valid_url(url)`: a string that starts with "http" and contains
   * "olx.pl". `None` stands for a value that is not a string at all.
   */
  function IsValidUrl(url: Option<string>): (r: bool)
    ensures r <==> url.Some? && StartsWith(url.value, "http") && exists i :: OccursAt(url.value, "olx.pl", i)
  {
    url.Some? && StartsWith(url.value, "http") && Contains(url.value, "olx.pl")
  }

  // ---------------------------------------------------------------------------
  // remove_duplicate_offers
  // ---------------------------------------------------------------------------

  /**
   * The offers kept by a first-wins pass over `s`, in the order their URL was
   * first seen: an offer is kept when no earlier offer had its URL.
   */
  function Dedup(s: seq<Offer>): seq<Offer>
    decreases |s|
  {
    if s == [] then []
    else
      var d := Dedup(s[..|s| - 1]);
      if s[|s| - 1].url in UrlSet(d) then d else d + [s[|s| - 1]]
  }

  /** Position `i` holds the first offer of `s` with its URL. */
  predicate IsFirstOccurrence(s: seq<Offer>, i: int)
  {
    0 <= i < |s| && forall j :: 0 <= j < i ==> s[j].url != s[i].url
  }

  /** The positions of first occurrences, in increasing order. */
  function FirstIndices(s: seq<Offer>): (idx: seq<nat>)
    ensures forall k :: 0 <= k < |idx| ==> IsFirstOccurrence(s, idx[k])
    ensures forall k, l :: 0 <= k < l < |idx| ==> idx[k] < idx[l]
    ensures forall i :: IsFirstOccurrence(s, i) ==> i in idx
    decreases |s|
  {
    if s == [] then []
    else
      var p := s[..|s| - 1];
      var rest := FirstIndices(p);
      assert forall i :: 0 <= i < |p| ==> (IsFirstOccurrence(p, i) <==> IsFirstOccurrence(s, i));
      if IsFirstOccurrence(s, |s| - 1) then rest + [|s| - 1] else rest
  }

  lemma UrlSetSnoc(s: seq<Offer>, x: Offer)
    ensures UrlSet(s + [x]) == UrlSet(s) + {x.url}
  {
    forall u | u in UrlSet(s + [x]) ensures u in UrlSet(s) + {x.url} {
      var o :| o in s + [x] && o.url == u;
      if o != x { assert o in s; }
    }
    forall u | u in UrlSet(s) ensures u in UrlSet(s + [x]) {
      var o :| o in s && o.url == u;
      assert o in s + [x];
    }
    assert x in s + [x];
  }

  /** The kept offers cover exactly the input's URLs. */
  lemma {:induction false} DedupUrls(s: seq<Offer>)
    ensures UrlSet(Dedup(s)) == UrlSet(s)
    decreases |s|
  {
    if s != [] {
      var p, x := s[..|s| - 1], s[|s| - 1];
      assert s == p + [x];
      DedupUrls(p);
      UrlSetSnoc(p, x);
      UrlSetSnoc(Dedup(p), x);
    }
  }

  /** No URL is kept twice. */
  lemma {:induction false} DedupDistinct(s: seq<Offer>)
    ensures DistinctUrls(Dedup(s))
    decreases |s|
  {
    if s != [] {
      var p, x := s[..|s| - 1], s[|s| - 1];
      var d := Dedup(p);
      DedupDistinct(p);
      if x.url !in UrlSet(d) {
        forall j | 0 <= j < |d| ensures d[j].url != x.url {
          assert d[j] in d;
        }
      }
    }
  }

  /**
   * The kept offers are exactly the first occurrences of each URL, taken in
   * input order: so the result is a subsequence of the input, each kept offer
   * is the first with its URL, and the order is that of first appearance.
   */
  lemma {:induction false} DedupIsFirstOccurrences(s: seq<Offer>)
    ensures |Dedup(s)| == |FirstIndices(s)|
    ensures forall k :: 0 <= k < |Dedup(s)| ==> FirstIndices(s)[k] < |s| && Dedup(s)[k] == s[FirstIndices(s)[k]]
    decreases |s|
  {
    if s != [] {
      var p, x := s[..|s| - 1], s[|s| - 1];
      DedupIsFirstOccurrences(p);
      DedupUrls(p);
      var d, idx := Dedup(p), FirstIndices(p);
      assert forall k :: 0 <= k < |idx| ==> idx[k] < |p| by {
        forall k | 0 <= k < |idx| ensures idx[k] < |p| {
          assert IsFirstOccurrence(p, idx[k]);
        }
      }
      if x.url in UrlSet(d) {
        var o :| o in p && o.url == x.url;
        var j :| 0 <= j < |p| && p[j] == o;
        assert !IsFirstOccurrence(s, |s| - 1);
      } else {
        forall j | 0 <= j < |s| - 1 ensures s[j].url != x.url {
          assert p[j] in p;
        }
        assert IsFirstOccurrence(s, |s| - 1);
      }
    }
  }

  /** In a list with distinct URLs, the last URL does not occur earlier. */
  lemma NotInEarlierUrls(s: seq<Offer>)
    requires s != [] && DistinctUrls(s)
    ensures s[|s| - 1].url !in UrlSet(s[..|s| - 1])
  {
    var p := s[..|s| - 1];
    forall o | o in p ensures o.url != s[|s| - 1].url {
      var j :| 0 <= j < |p| && p[j] == o;
      assert s[j] == o;
    }
  }

  lemma {:induction false} DistinctUrlsCard(s: seq<Offer>)
    requires DistinctUrls(s)
    ensures |UrlSet(s)| == |s|
    decreases |s|
  {
    if s != [] {
      var p, x := s[..|s| - 1], s[|s| - 1];
      assert s == p + [x];
      DistinctUrlsCard(p);
      UrlSetSnoc(p, x);
      NotInEarlierUrls(s);
    }
  }

  /** `len(unique) == number of distinct URLs`, so `removed == len(offers) - #URLs`. */
  lemma DedupLength(s: seq<Offer>)
    ensures |Dedup(s)| == |UrlSet(s)|
    ensures |Dedup(s)| <= |s|
  {
    DedupDistinct(s);
    DistinctUrlsCard(Dedup(s));
    DedupUrls(s);
    DedupIsFirstOccurrences(s);
    IndicesBound(FirstIndices(s), |s|);
  }

  lemma {:induction false} IndicesBound(idx: seq<nat>, n: nat)
    requires forall k :: 0 <= k < |idx| ==> idx[k] < n
    requires forall k, l :: 0 <= k < l < |idx| ==> idx[k] < idx[l]
    ensures |idx| <= n
    decreases n
  {
    if idx != [] {
      var last := idx[|idx| - 1];
      IndicesBound(idx[..|idx| - 1], last);
    }
  }

  lemma DistinctPrefix(s: seq<Offer>)
    requires s != [] && DistinctUrls(s)
    ensures DistinctUrls(s[..|s| - 1])
  {
    var p := s[..|s| - 1];
    forall i, j | 0 <= i < j < |p| ensures p[i].url != p[j].url {
      assert p[i] == s[i] && p[j] == s[j];
    }
  }

  /** A list with distinct URLs is left unchanged. */
  lemma {:induction false} DedupOfDistinct(s: seq<Offer>)
    requires DistinctUrls(s)
    ensures Dedup(s) == s
    decreases |s|
  {
    if s != [] {
      var p, x := s[..|s| - 1], s[|s| - 1];
      DistinctPrefix(s);
      DedupOfDistinct(p);
      NotInEarlierUrls(s);
      assert x.url !in UrlSet(Dedup(p));
      assert s == p + [x];
    }
  }

  /** De-duplicating twice is the same as once, and the second pass removes nothing. */
  lemma DedupIdempotent(s: seq<Offer>)
    ensures Dedup(Dedup(s)) == Dedup(s)
    ensures |Dedup(s)| - |Dedup(Dedup(s))| == 0
  {
    DedupDistinct(s);
    DedupOfDistinct(Dedup(s));
  }

  /**
   * `remove_duplicate_offers`: one pass keeping an insertion-ordered
   * dictionary from URL to offer (`seen` holds its keys, `unique` its values
   * in insertion order) and counting the offers whose URL was already present.
   */
  method RemoveDuplicateOffers(offers: seq<Offer>) returns (unique: seq<Offer>, removed: nat)
    ensures unique == Dedup(offers)
    ensures removed == |offers| - |unique|
  {
    var seen: set<string> := {};
    unique := [];
    removed := 0;
    for i := 0 to |offers|
      invariant unique == Dedup(offers[..i])
      invariant seen == UrlSet(unique)
      invariant removed + |unique| == i
    {
      var offer := offers[i];
      assert offers[..i + 1][..i] == offers[..i];
      if offer.url !in seen {
        UrlSetSnoc(unique, offer);
        seen := seen + {offer.url};
        unique := unique + [offer];
      } else {
        removed := removed + 1;
      }
    }
    assert offers[..|offers|] == offers;
  }
}
