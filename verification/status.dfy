/**
 * The liveness re-check of stored offers (scraper/main.py, `fetch_status`,
 * `check_offer`, `update_rented_status`).
 *
 * The network is a sequence of per-attempt outcomes; the worker pool is
 * modelled by computing every row's result from the table as it was when
 * the rows were submitted, then applying the results one at a time in the
 * order the pool completed them.
 */
module RentedStatus {
  import opened Wrappers
  import opened Table

  const MaxRetries: nat := 3
  /** Seconds slept after each failed attempt. */
  const RetryDelay: nat := 1

  /**
   * What the body of a 200 response yields: the value of `data.status`
   * (`None` when `data` is missing, or `status` is missing or null), or a
   * body whose reading raises inside the `try` (it does not decode, or
   * `data` is null), which counts as a failed attempt.
   */
  datatype Body = Undecodable | StatusBody(status: Option<string>)

  /** One request attempt: it raised (timeout, connection error), or it got a response. */
  datatype Outcome = Raised | Response(code: int, body: Body)

  /** The outcomes the network gives to the attempts of one lookup. */
  type Attempts = s: seq<Outcome> | |s| == MaxRetries witness [Raised, Raised, Raised]

  /** An attempt that makes `fetch_status` return. */
  predicate Succeeds(o: Outcome)
  {
    o.Response? && o.code == 200 && o.body.StatusBody?
  }

  /** The position of the first attempt that succeeds, if any. */
  function FirstSuccess(s: seq<Outcome>): (r: Option<nat>)
    ensures r.Some? ==> r.value < |s| && Succeeds(s[r.value])
    ensures r.Some? ==> forall j :: 0 <= j < r.value ==> !Succeeds(s[j])
    ensures r.None? ==> forall j :: 0 <= j < |s| ==> !Succeeds(s[j])
  {
    if s == [] then None
    else if Succeeds(s[0]) then Some(0)
    else
      match FirstSuccess(s[1..])
      case None => None
      case Some(k) => Some(k + 1)
  }

  /** The status `fetch_status` returns for these attempt outcomes. */
  function FetchedStatus(attempts: Attempts): Option<string>
  {
    match FirstSuccess(attempts)
    case Some(k) => attempts[k].body.status
    case None => None
  }

  /**
   * `fetch_status`: up to `MaxRetries` attempts; the first 200 response whose
   * body decodes ends the lookup with its `data.status`, even when that is
   * null. Every other attempt, raised or non-200 alike, is followed by one
   * sleep of `RetryDelay`, the last one included. Also returns the number of
   * attempts made, of sleeps taken and of seconds slept.
   */
  method FetchStatus(attempts: Attempts) returns (status: Option<string>, tries: nat, sleeps: nat, slept: nat)
    ensures 1 <= tries <= MaxRetries
    ensures slept == sleeps * RetryDelay
    ensures FirstSuccess(attempts).Some? ==>
      var k := FirstSuccess(attempts).value;
      status == attempts[k].body.status && tries == k + 1 && sleeps == k
    ensures FirstSuccess(attempts).None? ==>
      status == None && tries == MaxRetries && sleeps == MaxRetries
  {
    tries, sleeps, slept := 0, 0, 0;
    for attempt := 1 to MaxRetries + 1
      invariant tries == sleeps == attempt - 1
      invariant slept == sleeps * RetryDelay
      invariant forall j :: 0 <= j < attempt - 1 ==> !Succeeds(attempts[j])
    {
      tries := tries + 1;
      var outcome := attempts[attempt - 1];
      if outcome.Response? && outcome.code == 200 {
        match outcome.body
        case StatusBody(s) =>
          status := s;
          return;
        case Undecodable =>
      }
      sleeps := sleeps + 1;
      slept := slept + RetryDelay;
    }
    status := None;
  }

  /** A fetched status marks an offer when it is truthy and not "active". */
  predicate MarksRented(status: string)
  {
    status != "" && status != "active"
  }

  /**
   * The status a row is marked with, if any: only rows with no `rented_at`
   * are looked up, and only a marking status counts.
   */
  function Verdict(row: Row, attempts: Attempts): Option<string>
  {
    if row.rentedAt.Some? then None
    else
      match FetchedStatus(attempts)
      case Some(s) => if MarksRented(s) then Some(s) else None
      case None => None
  }

  /**
   * `check_offer(i, offer)`: looks the offer up when its `rented_at` is null,
   * and returns `(i, status)` when the status is truthy and not "active".
   */
  method CheckOffer(i: nat, row: Row, attempts: Attempts) returns (result: Option<(nat, string)>)
    ensures result.Some? <==>
      row.rentedAt.None? && FetchedStatus(attempts).Some? && MarksRented(FetchedStatus(attempts).value)
    ensures result.Some? ==> result.value == (i, FetchedStatus(attempts).value)
  {
    result := None;
    if row.rentedAt.None? {
      var status, _, _, _ := FetchStatus(attempts);
      if status.Some? && MarksRented(status.value) {
        result := Some((i, status.value));
      }
    }
  }

  /** Every row's verdict, computed from one snapshot of the table. */
  function Verdicts(rows: seq<Row>, lookups: seq<Attempts>): (v: seq<Option<string>>)
    requires |lookups| == |rows|
    ensures |v| == |rows|
  {
    seq(|rows|, i requires 0 <= i < |rows| => Verdict(rows[i], lookups[i]))
  }

  /** The two cells `update_rented_status` writes for a marked row. */
  function MarkRow(row: Row, today: Date, status: string): Row
  {
    row.(rentedAt := Some(today), status := Some(status))
  }

  /** The table with every row that has a verdict marked, all at once. */
  function MarkRented(rows: seq<Row>, v: seq<Option<string>>, today: Date): (t: seq<Row>)
    requires |v| == |rows|
    ensures |t| == |rows|
  {
    seq(|rows|, i requires 0 <= i < |rows| =>
      if v[i].Some? then MarkRow(rows[i], today, v[i].value) else rows[i])
  }

  /** The table after applying the verdicts of the listed rows, one at a time, in `order`. */
  function ApplyInOrder(rows: seq<Row>, v: seq<Option<string>>, order: seq<nat>, today: Date): (t: seq<Row>)
    requires |v| == |rows|
    requires forall k :: 0 <= k < |order| ==> order[k] < |rows|
    ensures |t| == |rows|
  {
    if order == [] then rows
    else
      var t := ApplyInOrder(rows, v, order[..|order| - 1], today);
      var i := order[|order| - 1];
      if v[i].Some? then t[i := MarkRow(t[i], today, v[i].value)] else t
  }

  /** The indices of the rows a set of verdicts marks. */
  function MarkedIndices(v: seq<Option<string>>): set<nat>
  {
    set i: nat | i < |v| && v[i].Some?
  }

  /** The marked rows among those listed in `order`. */
  function MarkedAmong(v: seq<Option<string>>, order: seq<nat>): set<nat>
  {
    set i: nat | i < |v| && i in order && v[i].Some?
  }

  /** The pool yields every submitted row exactly once, in some order. */
  predicate IsCompletionOrder(order: seq<nat>, n: nat)
  {
    && (forall k :: 0 <= k < |order| ==> order[k] < n)
    && (forall k, l :: 0 <= k < l < |order| ==> order[k] != order[l])
    && (forall i :: 0 <= i < n ==> i in order)
  }

  /**
   * Applying verdicts in an order that lists each row at most once marks
   * exactly the listed rows that have a verdict, each from its original value.
   */
  lemma {:induction false} ApplyInOrderMarksListed(rows: seq<Row>, v: seq<Option<string>>, order: seq<nat>, today: Date)
    requires |v| == |rows|
    requires forall k :: 0 <= k < |order| ==> order[k] < |rows|
    requires forall k, l :: 0 <= k < l < |order| ==> order[k] != order[l]
    ensures forall i :: 0 <= i < |rows| ==>
      ApplyInOrder(rows, v, order, today)[i] ==
        if i in order && v[i].Some? then MarkRow(rows[i], today, v[i].value) else rows[i]
  {
    if order != [] {
      var front, last := order[..|order| - 1], order[|order| - 1];
      ApplyInOrderMarksListed(rows, v, front, today);
      assert last !in front by {
        forall k | 0 <= k < |front| ensures front[k] != last {
          assert front[k] == order[k];
        }
      }
      assert order == front + [last];
      forall i | 0 <= i < |rows| ensures (i in order <==> i in front || i == last) {
      }
    }
  }

  /**
   * The final table does not depend on the order in which the workers
   * complete: any completion order gives the all-at-once marking.
   */
  lemma CompletionOrderIrrelevant(rows: seq<Row>, v: seq<Option<string>>, p: seq<nat>, q: seq<nat>, today: Date)
    requires |v| == |rows|
    requires IsCompletionOrder(p, |rows|) && IsCompletionOrder(q, |rows|)
    ensures ApplyInOrder(rows, v, p, today) == MarkRented(rows, v, today)
    ensures ApplyInOrder(rows, v, p, today) == ApplyInOrder(rows, v, q, today)
  {
    ApplyInOrderMarksListed(rows, v, p, today);
    ApplyInOrderMarksListed(rows, v, q, today);
  }

  lemma MarkedAmongSnoc(v: seq<Option<string>>, order: seq<nat>, x: nat)
    requires x < |v| && x !in order
    ensures MarkedAmong(v, order + [x]) == MarkedAmong(v, order) + (if v[x].Some? then {x} else {})
    ensures x !in MarkedAmong(v, order)
  {
  }

  /** The result a worker hands back for row `i`: `(i, status)` or nothing. */
  function AsResult(i: nat, verdict: Option<string>): Option<(nat, string)>
  {
    if verdict.Some? then Some((i, verdict.value)) else None
  }

  /**
   * The submitting half of `update_rented_status`: one `check_offer` per row
   * of the snapshot the pool was given.
   */
  method SubmitAll(rows: seq<Row>, lookups: seq<Attempts>) returns (results: seq<Option<(nat, string)>>)
    requires |lookups| == |rows|
    ensures |results| == |rows|
    ensures forall i :: 0 <= i < |rows| ==> results[i] == AsResult(i, Verdicts(rows, lookups)[i])
  {
    results := [];
    for i := 0 to |rows|
      invariant |results| == i
      invariant forall j :: 0 <= j < i ==> results[j] == AsResult(j, Verdict(rows[j], lookups[j]))
    {
      var result := CheckOffer(i, rows[i], lookups[i]);
      results := results + [result];
    }
  }

  predicate IndicesBelow(order: seq<nat>, n: nat)
  {
    forall j :: 0 <= j < |order| ==> order[j] < n
  }

  /** Taking the next completed row: what it adds to the table and to the marked set. */
  lemma CompletionStep(rows: seq<Row>, v: seq<Option<string>>, completion: seq<nat>, k: nat, today: Date)
    requires |v| == |rows| && IsCompletionOrder(completion, |rows|) && k < |completion|
    ensures IndicesBelow(completion[..k], |rows|) && IndicesBelow(completion[..k + 1], |rows|)
    ensures var t := ApplyInOrder(rows, v, completion[..k], today);
      var x := completion[k];
      && ApplyInOrder(rows, v, completion[..k + 1], today) ==
           (if v[x].Some? then t[x := MarkRow(t[x], today, v[x].value)] else t)
      && MarkedAmong(v, completion[..k + 1]) == MarkedAmong(v, completion[..k]) + (if v[x].Some? then {x} else {})
      && x !in MarkedAmong(v, completion[..k])
  {
    var x := completion[k];
    assert completion[..k + 1] == completion[..k] + [x];
    assert completion[..k + 1][..k] == completion[..k];
    assert x !in completion[..k];
    MarkedAmongSnoc(v, completion[..k], x);
  }

  /**
   * The collecting half of `update_rented_status`: results are taken in
   * `completion` order and each one that marks a row writes `rented_at` and
   * `status` into that row of `df` and bumps the count.
   */
  method ApplyCompleted(df: array<Row>, results: seq<Option<(nat, string)>>, ghost v: seq<Option<string>>,
                        completion: seq<nat>, today: Date) returns (rentedCount: nat)
    requires |v| == |results| == df.Length
    requires forall i :: 0 <= i < |results| ==> results[i] == AsResult(i, v[i])
    requires IsCompletionOrder(completion, df.Length)
    modifies df
    ensures df[..] == ApplyInOrder(old(df[..]), v, completion, today)
    ensures rentedCount == |MarkedAmong(v, completion)|
  {
    ghost var rows := df[..];
    rentedCount := 0;
    assert completion[..0] == [];
    for k := 0 to |completion|
      invariant df[..] == ApplyInOrder(rows, v, completion[..k], today)
      invariant rentedCount == |MarkedAmong(v, completion[..k])|
    {
      var next := completion[k];
      CompletionStep(rows, v, completion, k, today);
      var result := results[next];
      ghost var before := df[..];
      if result.Some? {
        var (i, status) := result.value;
        assert i == next && v[next] == Some(status);
        df[i] := MarkRow(df[i], today, status);
        assert df[..] == before[next := MarkRow(before[next], today, status)];
        rentedCount := rentedCount + 1;
      }
    }
    assert completion[..|completion|] == completion;
  }

  /**
   * `update_rented_status`: every row is submitted to the pool; the results
   * are applied to the table in `completion` order, each marked row getting
   * `rented_at = today` and the fetched status, and `rentedCount` counting them.
   * Whatever the completion order, the table ends up the same.
   */
  method UpdateRentedStatus(df: array<Row>, lookups: seq<Attempts>, completion: seq<nat>, today: Date)
    returns (rentedCount: nat)
    requires |lookups| == df.Length
    requires IsCompletionOrder(completion, df.Length)
    modifies df
    ensures df[..] == MarkRented(old(df[..]), Verdicts(old(df[..]), lookups), today)
    ensures rentedCount == |MarkedIndices(Verdicts(old(df[..]), lookups))|
  {
    ghost var rows := df[..];
    ghost var v := Verdicts(rows, lookups);
    var results := SubmitAll(df[..], lookups);
    rentedCount := ApplyCompleted(df, results, v, completion, today);
    CompletionOrderIrrelevant(rows, v, completion, completion, today);
    assert MarkedAmong(v, completion) == MarkedIndices(v);
  }

  /**
   * What one re-check does to the table: rows that already have a
   * `rented_at` are untouched, and every other row either stays as it was or
   * gets `rented_at = today` and a fetched status that is truthy and not
   * "active", with no other column changed.
   */
  lemma MarkRentedEffect(rows: seq<Row>, lookups: seq<Attempts>, today: Date)
    requires |lookups| == |rows|
    ensures var t := MarkRented(rows, Verdicts(rows, lookups), today);
      forall i :: 0 <= i < |rows| ==>
        && (rows[i].rentedAt.Some? ==> t[i] == rows[i])
        && (t[i] == rows[i] ||
            (&& rows[i].rentedAt.None?
             && FetchedStatus(lookups[i]).Some?
             && MarksRented(FetchedStatus(lookups[i]).value)
             && t[i] == rows[i].(rentedAt := Some(today), status := FetchedStatus(lookups[i]))))
  {
  }

  /**
   * Rented is terminal: a row marked by one re-check is left unchanged by any
   * later re-check, whatever its lookups return.
   */
  lemma RentedIsTerminal(rows: seq<Row>, first: seq<Attempts>, second: seq<Attempts>, today: Date, later: Date)
    requires |first| == |rows| && |second| == |rows|
    ensures var t1 := MarkRented(rows, Verdicts(rows, first), today);
      var t2 := MarkRented(t1, Verdicts(t1, second), later);
      forall i :: 0 <= i < |rows| && t1[i].rentedAt.Some? ==> t2[i] == t1[i]
  {
  }
}
