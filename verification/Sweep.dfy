/**
 * The orphan sweep: CleanupOrphaned of both runners, on the schedule of cleanup.Start.
 * Times are nanoseconds; hosts report creation times in whole seconds.
 */
module Sweep {
  import opened Wrappers

  const SECOND: int := 1_000_000_000
  const INTERVAL: int := 300 * SECOND
  const DOCKER_COPY: int := 60 * SECOND

  function Truncated(t: int): int {
    t / SECOND * SECOND
  }

  lemma TruncatedBounds(t: int)
    ensures Truncated(t) <= t < Truncated(t) + SECOND
  {
  }

  /** The sweep's test: reported creation before now - 2 * timeout. */
  predicate Selected(created: int, now: int, timeout: int) {
    Truncated(created) < now - 2 * timeout
  }

  datatype Listed = Listed(id: string, created: int)

  /** The items a sweep goes for, in their order. */
  function Due(items: seq<Listed>, now: int, timeout: int): (due: seq<Listed>)
    ensures forall c :: c in due <==> c in items && Selected(c.created, now, timeout)
  {
    if items == [] then []
    else
      var last := items[|items| - 1];
      assert items == items[..|items| - 1] + [last];
      Due(items[..|items| - 1], now, timeout) + if Selected(last.created, now, timeout) then [last] else []
  }

  /** The items a sweep gets rid of; fails answers, item by item, whether a removal fails. */
  function Removed(items: seq<Listed>, now: int, timeout: int, fails: nat -> bool): seq<Listed> {
    if items == [] then []
    else
      var n := |items| - 1;
      Removed(items[..n], now, timeout, fails) +
      if Selected(items[n].created, now, timeout) && !fails(n) then [items[n]] else []
  }

  /** A removal that fails keeps none of the others from being removed. */
  lemma {:induction false} RemovedExactly(items: seq<Listed>, now: int, timeout: int, fails: nat -> bool, c: Listed)
    ensures c in Removed(items, now, timeout, fails) <==>
      exists i | 0 <= i < |items| :: items[i] == c && Selected(c.created, now, timeout) && !fails(i)
  {
    if items != [] {
      var n := |items| - 1;
      RemovedExactly(items[..n], now, timeout, fails, c);
      assert forall i | 0 <= i < n :: items[..n][i] == items[i];
    }
  }

  /** Nothing is attempted when the listing fails. */
  method CleanupOrphaned(listing: Option<seq<Listed>>, now: int, timeout: int, fails: nat -> bool)
    returns (ok: bool, attempted: seq<Listed>, removed: seq<Listed>)
    ensures ok == listing.Some?
    ensures attempted == if ok then Due(listing.value, now, timeout) else []
    ensures removed == if ok then Removed(listing.value, now, timeout, fails) else []
  {
    attempted, removed := [], [];
    if listing.None? { return false, [], []; }
    ok := true;
    var items := listing.value;
    var threshold := now - 2 * timeout;
    var i := 0;
    while i < |items|
      invariant 0 <= i <= |items|
      invariant attempted == Due(items[..i], now, timeout)
      invariant removed == Removed(items[..i], now, timeout, fails)
    {
      assert items[..i + 1][..i] == items[..i];
      if Truncated(items[i].created) < threshold {
        attempted := attempted + [items[i]];
        if !fails(i) { removed := removed + [items[i]]; }
      }
      i := i + 1;
    }
    assert items[..i] == items;
  }

  /**
   * A container is in use from its creation until its results are copied: it is started
   * after `delay`, waited on for at most the timeout, the result directory takes `setup`,
   * and copying takes at most `copy`.
   */
  predicate InUse(created: int, now: int, timeout: int, delay: int, setup: int, copy: int) {
    created <= now <= created + delay + timeout + setup + copy
  }

  ghost predicate SweepSafe(timeout: int, delay: int, setup: int, copy: int) {
    forall created: int, now: int | InUse(created, now, timeout, delay, setup, copy) :: !Selected(created, now, timeout)
  }

  /**
   * No sweep at any time selects a container in use if and only if delay, set-up, copying
   * and the nanosecond-exact rounding loss together fit into the timeout.
   */
  lemma SweepSafeExactly(timeout: int, delay: int, setup: int, copy: int)
    requires timeout >= 0 && delay >= 0 && setup >= 0 && copy >= 0
    ensures SweepSafe(timeout, delay, setup, copy) <==> delay + setup + copy + SECOND - 1 <= timeout
  {
    if delay + setup + copy + SECOND - 1 <= timeout {
      forall created: int, now: int | InUse(created, now, timeout, delay, setup, copy)
        ensures !Selected(created, now, timeout)
      {
        TruncatedBounds(created);
      }
    } else {
      var created := SECOND - 1;
      var now := created + delay + timeout + setup + copy;
      assert Truncated(created) == 0;
      assert InUse(created, now, timeout, delay, setup, copy) && Selected(created, now, timeout);
    }
  }

  /** Docker bounds its copy at a minute: 61 seconds of slack are enough. */
  lemma DockerSweepSafe(timeout: int, delay: int, setup: int)
    requires delay >= 0 && setup >= 0 && delay + setup + 61 * SECOND <= timeout
    ensures SweepSafe(timeout, delay, setup, DOCKER_COPY)
  {
    SweepSafeExactly(timeout, delay, setup, DOCKER_COPY);
  }

  /** Kubernetes does not bound its copy: a copy as long as the timeout can meet the sweep, whatever the timeout. */
  lemma KubernetesSweepUnsafe(timeout: int, copy: int)
    requires 0 <= timeout <= copy
    ensures !SweepSafe(timeout, 0, 0, copy)
  {
    SweepSafeExactly(timeout, 0, 0, copy);
  }

  // ----- when the sweeps run -----

  /** The first tick after t of a ticker made at `origin`. */
  function TickAfter(origin: int, t: int): int
    requires origin <= t
  {
    origin + ((t - origin) / INTERVAL + 1) * INTERVAL
  }

  lemma TickSoon(origin: int, t: int)
    requires origin <= t
    ensures t < TickAfter(origin, t) <= t + INTERVAL
  {
    var n := (t - origin) / INTERVAL;
    assert n * INTERVAL <= t - origin < n * INTERVAL + INTERVAL;
  }

  /**
   * Sweep k begins at at(k) and takes took(k). The first runs at start, the ticker is made
   * when it ends, and each later one begins with the first tick after the previous began, or
   * when the previous ends if that is later: further ticks that come meanwhile are lost.
   */
  ghost predicate Scheduled(at: nat -> int, took: nat -> int) {
    && (forall k: nat :: took(k) >= 0)
    && at(1) == at(0) + took(0) + INTERVAL
    && forall k: nat | k >= 1 :: at(k) >= at(0) + took(0) && at(k + 1) == SweepAfter(at(0) + took(0), at(k), took(k))
  }

  function SweepAfter(origin: int, at: int, took: int): int
    requires origin <= at
  {
    if at + took > TickAfter(origin, at) then at + took else TickAfter(origin, at)
  }

  /** With no sweep longer than `longest`, the next one begins an interval and `longest` later at most. */
  lemma SweepSoon(at: nat -> int, took: nat -> int, longest: int, k: nat)
    requires Scheduled(at, took) && forall j: nat :: took(j) <= longest
    ensures at(k) < at(k + 1) <= at(k) + INTERVAL + longest
  {
    if k > 0 { TickSoon(at(0) + took(0), at(k)); }
  }

  lemma {:induction false} SweepsAdvance(at: nat -> int, took: nat -> int, longest: int, j: nat, k: nat)
    requires Scheduled(at, took) && (forall i: nat :: took(i) <= longest) && j <= k
    ensures at(j) + (k - j) <= at(k)
    decreases k - j
  {
    if j < k {
      SweepSoon(at, took, longest, j);
      SweepsAdvance(at, took, longest, j + 1, k);
    }
  }

  /** The first sweep that begins after a given time. */
  lemma {:induction false} FirstAfter(at: nat -> int, took: nat -> int, longest: int, due: int, k: nat)
    returns (first: nat)
    requires Scheduled(at, took) && forall j: nat :: took(j) <= longest
    requires k == 0 || at(k - 1) <= due
    ensures at(first) > due && first >= k && (first == 0 || at(first - 1) <= due)
    decreases due - at(k)
  {
    if at(k) > due {
      first := k;
    } else {
      SweepSoon(at, took, longest, k);
      first := FirstAfter(at, took, longest, due, k + 1);
    }
  }

  /**
   * A container left behind is selected by some sweep that begins no later than one interval
   * and one sweep's duration after twice the timeout from its creation (or by the first sweep,
   * if it is older than that), by none before it, and by every one after.
   */
  lemma LeftoverIsSelected(created: int, timeout: int, at: nat -> int, took: nat -> int, longest: int) returns (k: nat)
    requires timeout >= 0 && Scheduled(at, took) && forall j: nat :: took(j) <= longest
    ensures Selected(created, at(k), timeout)
    ensures k == 0 || at(k) <= created + 2 * timeout + INTERVAL + longest
    ensures k > 0 ==> !Selected(created, at(k - 1), timeout)
    ensures forall j: nat | j >= k :: Selected(created, at(j), timeout)
  {
    TruncatedBounds(created);
    k := FirstAfter(at, took, longest, Truncated(created) + 2 * timeout, 0);
    if k > 0 { SweepSoon(at, took, longest, k - 1); }
    forall j: nat | j >= k ensures Selected(created, at(j), timeout) {
      SweepsAdvance(at, took, longest, k, j);
    }
  }
}
