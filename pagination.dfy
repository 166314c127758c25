/**
 * The "load more" loop of `get_jobs`. Each attempt either finds and clicks
 * the button (success) or raises (failure); `tries` counts consecutive
 * failures and the loop ends when it reaches the budget. The browser is a
 * finite sequence of click outcomes, one per attempt, in order.
 */
module Pagination {

  /** `max_tries` in get_jobs. */
  const MaxTries: nat := 3

  datatype Pager = Pager(pageCount: nat, tries: nat)

  /** `page_count = 1`, `tries = 0` */
  const Start: Pager := Pager(1, 0)

  /** One iteration of the loop body: a click adds a page and resets the failure count, a failure adds to it. */
  function Step(p: Pager, clicked: bool): (q: Pager)
    ensures clicked <==> q.tries == 0
    ensures q.pageCount == p.pageCount + (if clicked then 1 else 0)
    ensures !clicked ==> q.tries == p.tries + 1
  {
    if clicked then Pager(p.pageCount + 1, 0) else Pager(p.pageCount, p.tries + 1)
  }

  /** The counters after the given attempts, starting from `Start`. */
  function Run(clicks: seq<bool>): (p: Pager)
    ensures p.pageCount >= 1
    ensures p.pageCount + p.tries <= 1 + |clicks|
  {
    if clicks == [] then Start
    else Step(Run(clicks[..|clicks| - 1]), clicks[|clicks| - 1])
  }

  function Successes(clicks: seq<bool>): nat {
    if clicks == [] then 0
    else Successes(clicks[..|clicks| - 1]) + (if clicks[|clicks| - 1] then 1 else 0)
  }

  /** The number of failures since the last success. */
  function TrailingFailures(clicks: seq<bool>): nat {
    if clicks == [] || clicks[|clicks| - 1] then 0
    else TrailingFailures(clicks[..|clicks| - 1]) + 1
  }

  /** `page_count` is one more than the number of successful clicks; `tries` the failures since the last one. */
  lemma {:induction false} RunCounts(clicks: seq<bool>)
    ensures Run(clicks).pageCount == 1 + Successes(clicks)
    ensures Run(clicks).tries == TrailingFailures(clicks)
  {
    if clicks != [] {
      RunCounts(clicks[..|clicks| - 1]);
    }
  }

  /**
   * The loop stops after `attempts` attempts: the counter has then reached the
   * budget, or the outcomes given have run out, and it had not reached the
   * budget after any shorter prefix.
   */
  ghost predicate StopsAfter(clicks: seq<bool>, attempts: nat) {
    && attempts <= |clicks|
    && (Run(clicks[..attempts]).tries == MaxTries || attempts == |clicks|)
    && forall k :: 0 <= k < attempts ==> Run(clicks[..k]).tries < MaxTries
  }

  /** `while tries < max_tries: ...` over the given click outcomes. */
  method LoadMore(clicks: seq<bool>) returns (pageCount: nat, tries: nat, attempts: nat)
    ensures StopsAfter(clicks, attempts)
    ensures Pager(pageCount, tries) == Run(clicks[..attempts])
    ensures tries <= MaxTries
    ensures pageCount == 1 + Successes(clicks[..attempts])
  {
    pageCount, tries, attempts := 1, 0, 0;
    while tries < MaxTries && attempts < |clicks|
      invariant attempts <= |clicks|
      invariant Pager(pageCount, tries) == Run(clicks[..attempts])
      invariant tries <= MaxTries
      invariant forall k :: 0 <= k < attempts ==> Run(clicks[..k]).tries < MaxTries
      decreases |clicks| - attempts
    {
      assert clicks[..attempts + 1][..attempts] == clicks[..attempts];
      if clicks[attempts] {
        tries := 0;
        pageCount := pageCount + 1;
      } else {
        tries := tries + 1;
      }
      attempts := attempts + 1;
    }
    RunCounts(clicks[..attempts]);
  }

  /** At most one attempt count satisfies StopsAfter: the loop's exit point is determined. */
  lemma StopsAfterUnique(clicks: seq<bool>, a: nat, b: nat)
    requires StopsAfter(clicks, a) && StopsAfter(clicks, b)
    ensures a == b
  {
  }

  lemma {:induction false} FailuresOnly(clicks: seq<bool>)
    requires forall i :: 0 <= i < |clicks| ==> !clicks[i]
    ensures Run(clicks) == Pager(1, |clicks|)
  {
    if clicks != [] {
      FailuresOnly(clicks[..|clicks| - 1]);
    }
  }

  /** A button that is never there ends the loop after exactly `MaxTries` attempts, on the first page. */
  lemma PermanentFailure(clicks: seq<bool>, attempts: nat)
    requires |clicks| >= MaxTries
    requires forall i :: 0 <= i < |clicks| ==> !clicks[i]
    requires StopsAfter(clicks, attempts)
    ensures attempts == MaxTries
    ensures Run(clicks[..attempts]) == Pager(1, MaxTries)
  {
    forall k | 0 <= k <= |clicks| ensures Run(clicks[..k]) == Pager(1, k) {
      FailuresOnly(clicks[..k]);
    }
  }

  lemma {:induction false} SuccessesOnly(clicks: seq<bool>)
    requires forall i :: 0 <= i < |clicks| ==> clicks[i]
    ensures Run(clicks) == Pager(1 + |clicks|, 0)
  {
    if clicks != [] {
      SuccessesOnly(clicks[..|clicks| - 1]);
    }
  }

  /** A button that always works never exhausts the budget: every outcome given is consumed. */
  lemma AlwaysClickable(clicks: seq<bool>, attempts: nat)
    requires forall i :: 0 <= i < |clicks| ==> clicks[i]
    requires StopsAfter(clicks, attempts)
    ensures attempts == |clicks|
    ensures Run(clicks[..attempts]) == Pager(1 + |clicks|, 0)
  {
    SuccessesOnly(clicks[..attempts]);
  }
}
