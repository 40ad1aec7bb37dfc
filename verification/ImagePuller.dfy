/** The image puller's per-image exponential backoff.  Times are instants in seconds. */
module ImagePuller {
  import opened Wrappers

  const INITIAL := 10.0
  const MAX := 300.0

  datatype Backoff = Backoff(nextRetry: real, current: real, failures: nat)

  type Backoffs = map<string, Backoff>

  function Min(a: real, b: real): real {
    if a <= b then a else b
  }

  function Fresh(now: real): Backoff {
    Backoff(now, INITIAL, 0)
  }

  function Failed(b: Backoff, now: real): Backoff {
    Backoff(now + b.current, Min(b.current * 2.0, MAX), b.failures + 1)
  }

  function Succeeded(now: real): Backoff {
    Backoff(now, INITIAL, 0)
  }

  /** A pull whose backoff check reads `check` and whose outcome is recorded at `stamp`; or a cleared image. */
  datatype Event = Pull(image: string, check: real, ok: bool, stamp: real) | Clear(image: string)

  predicate Blocked(bs: Backoffs, e: Event) {
    e.Pull? && e.image in bs && e.check < bs[e.image].nextRetry
  }

  function Next(bs: Backoffs, e: Event): Backoffs {
    match e
    case Clear(image) => bs - {image}
    case Pull(image, _, ok, stamp) =>
      if Blocked(bs, e) then bs
      else if ok then (if image in bs then bs[image := Succeeded(stamp)] else bs)
      else bs[image := Failed(if image in bs then bs[image] else Fresh(stamp), stamp)]
  }

  class Puller {
    var backoffs: Backoffs

    constructor ()
      ensures backoffs == map[]
    {
      backoffs := map[];
    }

    /** `outcome` is what the runtime answers if it is asked. */
    method PullWithBackoff(image: string, check: real, outcome: Result<string>, stamp: real) returns (r: Result<string>)
      modifies this
      ensures backoffs == Next(old(backoffs), Pull(image, check, outcome.Ok?, stamp))
      ensures r == if Blocked(old(backoffs), Pull(image, check, outcome.Ok?, stamp))
                  then Err("image is in pull backoff")
                   else outcome
    {
      if image in backoffs && check < backoffs[image].nextRetry {
        return Err("image is in pull backoff");
      }
      if outcome.Ok? {
        if image in backoffs {
          backoffs := backoffs[image := Succeeded(stamp)];
        }
      } else {
        var before := if image in backoffs then backoffs[image] else Fresh(stamp);
        backoffs := backoffs[image := Failed(before, stamp)];
      }
      return outcome;
    }

    method ClearBackoff(image: string)
      modifies this
      ensures backoffs == Next(old(backoffs), Clear(image))
    {
      backoffs := backoffs - {image};
    }
  }

  // -- Runs --------------------------------------------------------------------

  function Run(run: seq<Event>): Backoffs
    decreases |run|
  {
    if run == [] then map[] else Next(Run(run[..|run| - 1]), run[|run| - 1])
  }

  /** Pulls of one image do not overlap: each starts after the one before was recorded. */
  predicate Sequential(run: seq<Event>) {
    && (forall i :: 0 <= i < |run| && run[i].Pull? ==> run[i].check <= run[i].stamp)
    && (forall i, j :: 0 <= i < j < |run| && run[i].Pull? && run[j].Pull? && run[i].image == run[j].image ==>
          run[i].stamp <= run[j].check)
  }

  /** Times of the failures of `image` since its last success or clear; blocked calls do not pull. */
  function Streak(run: seq<Event>, image: string): seq<real>
    decreases |run|
  {
    if run == [] then []
    else
      var front, e := run[..|run| - 1], run[|run| - 1];
      var before := Streak(front, image);
      if e.image != image || Blocked(Run(front), e) then before
      else if e.Pull? && !e.ok then before + [e.stamp]
      else []
  }

  function Pow2(n: nat): nat {
    if n == 0 then 1 else 2 * Pow2(n - 1)
  }

  /** min(10 * 2^n, 300) */
  function Capped(n: nat): real {
    Min(10.0 * Pow2(n) as real, MAX)
  }

  lemma CappedStep(n: nat)
    ensures Capped(n + 1) == Min(Capped(n) * 2.0, MAX)
  {
  }

  predicate GapsAreBackoffs(fails: seq<real>) {
    forall i :: 0 <= i < |fails| - 1 ==> fails[i + 1] - fails[i] >= Capped(i)
  }

  /** What the table says about an image whose last failures happened at `fails`. */
  predicate Matches(bs: Backoffs, image: string, fails: seq<real>) {
    if fails == [] then image in bs ==> bs[image].failures == 0 && bs[image].current == INITIAL
    else
      && image in bs
      && bs[image].failures == |fails|
      && bs[image].current == Capped(|fails|)
      && bs[image].nextRetry == fails[|fails| - 1] + Capped(|fails| - 1)
  }

  /**
   After n failures in a row the stored backoff is min(10 * 2^n, 300) seconds, the next pull
   waits min(10 * 2^(n-1), 300) seconds from the last failure, and so did every one before.
   */
  lemma {:induction false} BackoffDoubles(run: seq<Event>, image: string)
    requires Sequential(run)
    ensures Matches(Run(run), image, Streak(run, image))
    ensures GapsAreBackoffs(Streak(run, image))
    decreases |run|
  {
    if run != [] {
      var front, e := run[..|run| - 1], run[|run| - 1];
      BackoffDoubles(front, image);
      var before := Streak(front, image);
      if e.image == image && !Blocked(Run(front), e) && e.Pull? && !e.ok {
        assert Capped(0) == 10.0;
        CappedStep(|before|);
      }
    }
  }

  lemma CappedValues()
    ensures Capped(0) == 10.0 && Capped(1) == 20.0 && Capped(2) == 40.0 && Capped(3) == 80.0 && Capped(4) == 160.0
    ensures Capped(5) == 300.0
  {
  }

  lemma {:induction false} CappedStays(n: nat)
    requires n >= 5
    ensures Capped(n) == 300.0
  {
    if n == 5 {
      CappedValues();
    } else {
      CappedStays(n - 1);
      CappedStep(n - 1);
    }
  }

  lemma {:induction false} SpanAfterSix(fails: seq<real>, n: nat)
    requires GapsAreBackoffs(fails) && 6 <= n <= |fails|
    ensures fails[n - 1] - fails[0] >= 310.0 + 300.0 * (n - 6) as real
  {
    if n == 6 {
      CappedValues();
      assert fails[1] - fails[0] >= 10.0 && fails[2] - fails[1] >= 20.0 && fails[3] - fails[2] >= 40.0;
      assert fails[4] - fails[3] >= 80.0 && fails[5] - fails[4] >= 160.0;
    } else {
      SpanAfterSix(fails, n - 1);
      CappedStays(n - 2);
      assert fails[n - 2 + 1] - fails[n - 2] >= 300.0;
    }
  }

  /** Six failures in a row take at least 310 seconds and each further one at least 300 more. */
  lemma FailuresAreSpread(run: seq<Event>, image: string)
    requires Sequential(run) && |Streak(run, image)| >= 6
    ensures var fails := Streak(run, image);
            fails[|fails| - 1] - fails[0] >= 310.0 + 300.0 * (|fails| - 6) as real
  {
    BackoffDoubles(run, image);
    SpanAfterSix(Streak(run, image), |Streak(run, image)|);
  }

  // -- When a pull is let through ------------------------------------------------

  /** While no failure is open the image may be retried at once. */
  lemma {:induction false} NoStreakNoWait(run: seq<Event>, image: string) returns (i: nat)
    requires Streak(run, image) == [] && image in Run(run)
    ensures i < |run| && run[i].Pull? && run[i].image == image && Run(run)[image].nextRetry == run[i].stamp
    decreases |run|
  {
    var n := |run| - 1;
    var front, e := run[..n], run[n];
    if e.Pull? && e.image == image && !Blocked(Run(front), e) {
      i := n;
    } else {
      i := NoStreakNoWait(front, image);
    }
  }

  /**
   A pull is refused exactly while fewer than min(10 * 2^(n-1), 300) seconds have passed since the
   last of n failures in a row; after a success, a clear or no failure at all it is let through.
   */
  lemma BlockedIff(run: seq<Event>, e: Event)
    requires e.Pull? && Sequential(run + [e])
    ensures var fails := Streak(run, e.image);
            Blocked(Run(run), e) <==>
              fails != [] && e.check < fails[|fails| - 1] + Min(10.0 * Pow2(|fails| - 1) as real, 300.0)
  {
    var all := run + [e];
    assert forall i :: 0 <= i < |run| ==> all[i] == run[i];
    assert all[|run|] == e;
    BackoffDoubles(run, e.image);
    if Streak(run, e.image) == [] && e.image in Run(run) {
      var i := NoStreakNoWait(run, e.image);
      assert all[i].stamp <= all[|run|].check;
    }
  }
}
