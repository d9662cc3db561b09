/**
 * The retry loop of the multimodal page parser. Each model invocation either returns a
 * validated page or fails, with a failed validation or with any other error; failures are
 * retried after an exponential backoff of `2^k` seconds following failed attempt `k`, until
 * `max_retries + 1` invocations have been made. The outcome of every invocation is an input;
 * sleeping is recorded as the list of waits.
 */
module RagParser {
  import opened Wrappers
  import opened RagSchema

  /** What the `k`-th invocation of the structured-output model does. */
  datatype Outcome = Success(page: PageContent) | ValidationError | OtherError

  /** What one call of the parser amounts to: its result, how often the model ran, and the waits. */
  datatype Retry = Retry(result: Option<PageContent>, invocations: nat, sleeps: seq<nat>)

  const DefaultMaxRetries: int := 3

  function Pow2(k: nat): (p: nat)
    ensures p >= 1
  {
    if k == 0 then 1 else 2 * Pow2(k - 1)
  }

  /** `len(range(max_retries + 1))`. */
  function Attempts(maxRetries: int): nat {
    if maxRetries + 1 > 0 then maxRetries + 1 else 0
  }

  /** The waits `1, 2, 4, ...` after the first `k` failed attempts. */
  function Backoff(k: nat): (ws: seq<nat>)
    ensures |ws| == k && forall i :: 0 <= i < k ==> ws[i] == Pow2(i)
  {
    seq(k, i requires 0 <= i < k => Pow2(i))
  }

  /** The first attempt in `from..total` that succeeds. */
  function FirstSuccess(outcome: nat -> Outcome, from: nat, total: nat): (r: Option<nat>)
    ensures r.Some? ==> from <= r.value < total && outcome(r.value).Success?
    ensures r.Some? ==> forall k :: from <= k < r.value ==> !outcome(k).Success?
    ensures r.None? ==> forall k :: from <= k < total ==> !outcome(k).Success?
    decreases total - from
  {
    if from >= total then None
    else if outcome(from).Success? then Some(from)
    else FirstSuccess(outcome, from + 1, total)
  }

  /**
   * The parser's behaviour: the first success is returned after as many invocations and the
   * waits between them; when every attempt fails, `None` after all attempts, with a wait after
   * every attempt but the last.
   */
  function Run(outcome: nat -> Outcome, maxRetries: int): Retry {
    match FirstSuccess(outcome, 0, Attempts(maxRetries))
    case Some(k) => Retry(Some(outcome(k).page), k + 1, Backoff(k))
    case None => Retry(None, Attempts(maxRetries), Backoff(if maxRetries >= 0 then maxRetries else 0))
  }

  /** `parse_page_multimodal(pdf_page_bytes, max_retries)`, with the invocations' outcomes given. */
  method ParsePageMultimodal(outcome: nat -> Outcome, maxRetries: int := DefaultMaxRetries)
    returns (result: Option<PageContent>, invocations: nat, sleeps: seq<nat>)
    ensures Retry(result, invocations, sleeps) == Run(outcome, maxRetries)
  {
    invocations := 0;
    sleeps := [];
    var total := Attempts(maxRetries);
    for attempt := 0 to total
      invariant invocations == attempt
      invariant sleeps == Backoff(if attempt == total && total > 0 then total - 1 else attempt)
      invariant FirstSuccess(outcome, 0, total) == FirstSuccess(outcome, attempt, total)
    {
      invocations := invocations + 1;
      var o := outcome(attempt);
      if o.Success? {
        return Some(o.page), invocations, sleeps;
      }
      if attempt < maxRetries {
        var waitTime := Pow2(attempt);
        sleeps := sleeps + [waitTime];
      }
    }
    result := None;
  }

  /** The total of the waits. */
  function Sum(ws: seq<nat>): nat {
    if ws == [] then 0 else Sum(ws[..|ws| - 1]) + ws[|ws| - 1]
  }

  /** The waits after `k` failed attempts add up to `2^k - 1` seconds. */
  lemma {:induction false} BackoffTotal(k: nat)
    ensures Sum(Backoff(k)) == Pow2(k) - 1
  {
    if k > 0 {
      BackoffTotal(k - 1);
      assert Backoff(k)[..k - 1] == Backoff(k - 1);
    }
  }

  /**
   * At most `max_retries + 1` invocations; a wait follows every invocation except the last,
   * so there is never a wait after the final attempt or after a success.
   */
  lemma RunBounds(outcome: nat -> Outcome, maxRetries: int)
    ensures Run(outcome, maxRetries).invocations <= Attempts(maxRetries)
    ensures var r := Run(outcome, maxRetries);
      r.invocations > 0 ==> |r.sleeps| == r.invocations - 1
    ensures maxRetries >= 0 ==> Run(outcome, maxRetries).invocations > 0
  {
  }

  /** A success at attempt `k`, after `k` failures, is returned after `k + 1` invocations and `k` waits. */
  lemma RunSuccess(outcome: nat -> Outcome, maxRetries: int, k: nat)
    requires k < Attempts(maxRetries) && outcome(k).Success?
    requires forall j :: 0 <= j < k ==> !outcome(j).Success?
    ensures Run(outcome, maxRetries) == Retry(Some(outcome(k).page), k + 1, Backoff(k))
  {
    var r := FirstSuccess(outcome, 0, Attempts(maxRetries));
    if r != Some(k) {
      assert false;
    }
  }

  /**
   * When every attempt fails the result is `None` after exactly `max_retries + 1` invocations,
   * and the parser has waited `2^max_retries - 1` seconds in all.
   */
  lemma RunAllFail(outcome: nat -> Outcome, maxRetries: nat)
    requires forall k :: 0 <= k <= maxRetries ==> !outcome(k).Success?
    ensures Run(outcome, maxRetries).result == None
    ensures Run(outcome, maxRetries).invocations == maxRetries + 1
    ensures Sum(Run(outcome, maxRetries).sleeps) == Pow2(maxRetries) - 1
  {
    var r := FirstSuccess(outcome, 0, Attempts(maxRetries));
    if r.Some? {
      assert false;
    }
    BackoffTotal(maxRetries);
  }

  /** With the default of three retries, a page that never parses costs four invocations and seven seconds. */
  lemma DefaultAllFail(outcome: nat -> Outcome)
    requires forall k :: 0 <= k <= 3 ==> !outcome(k).Success?
    ensures Run(outcome, DefaultMaxRetries).invocations == 4
    ensures Sum(Run(outcome, DefaultMaxRetries).sleeps) == 7
  {
    RunAllFail(outcome, 3);
    assert Pow2(3) == 8;
  }

  /** A validation failure and any other error are handled alike: only success matters. */
  lemma {:induction false} ErrorsAlike(o1: nat -> Outcome, o2: nat -> Outcome, maxRetries: int)
    requires forall k :: o1(k).Success? == o2(k).Success?
    requires forall k :: o1(k).Success? ==> o1(k) == o2(k)
    ensures Run(o1, maxRetries) == Run(o2, maxRetries)
  {
    SameFirstSuccess(o1, o2, 0, Attempts(maxRetries));
  }

  lemma {:induction false} SameFirstSuccess(o1: nat -> Outcome, o2: nat -> Outcome, from: nat, total: nat)
    requires forall k :: o1(k).Success? == o2(k).Success?
    ensures FirstSuccess(o1, from, total) == FirstSuccess(o2, from, total)
    decreases total - from
  {
    if from < total && !o1(from).Success? {
      SameFirstSuccess(o1, o2, from + 1, total);
    }
  }
}
