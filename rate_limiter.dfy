/**
 * The process-wide sliding-window gate in front of the model provider
 * (`wait_for_rate_limit`): at most `RequestLimit` requests per rolling window
 * of `WindowSeconds`. The wall clock is an integer number of seconds passed
 * in by the caller, and the sleep is returned as a number of seconds instead
 * of being taken.
 */
module RateLimiter {

  const RequestLimit: nat := 15
  const WindowSeconds: int := 60

  predicate Sorted(s: seq<int>) {
    forall i, j :: 0 <= i < j < |s| ==> s[i] <= s[j]
  }

  /** Every recorded time lies at or before `now` (the clock has not gone backwards). */
  predicate NotAfter(s: seq<int>, now: int) {
    forall i :: 0 <= i < |s| ==> s[i] <= now
  }

  /** `r` is what is left of `s` once some leading entries are popped. */
  predicate SuffixOf(r: seq<int>, s: seq<int>) {
    |r| <= |s| && forall k :: 0 <= k < |r| ==> r[k] == s[|s| - |r| + k]
  }

  /** How many leading entries the trimming loop pops: those at least a window old. */
  function Stale(times: seq<int>, now: int): (k: nat)
    ensures k <= |times|
    ensures k < |times| ==> now - times[k] < WindowSeconds
    decreases |times|
  {
    if |times| > 0 && now - times[0] >= WindowSeconds then 1 + Stale(times[1..], now) else 0
  }

  /** The list once the trimming loop is done. */
  function Trim(times: seq<int>, now: int): seq<int> {
    times[Stale(times, now)..]
  }

  /** How many entries leave the list: the stale ones, and the oldest left if still full. */
  function Dropped(times: seq<int>, now: int): (d: nat)
    ensures d <= |times|
  {
    var k := Stale(times, now);
    if |times| - k >= RequestLimit then k + 1 else k
  }

  /** The entries that stay. */
  function Kept(times: seq<int>, now: int): seq<int> {
    times[Dropped(times, now)..]
  }

  /** Seconds the gate sleeps before admitting a request that arrives at `now`. */
  function Wait(times: seq<int>, now: int): (w: int)
    ensures w >= 0
  {
    var k := Stale(times, now);
    if |times| - k >= RequestLimit && WindowSeconds - (now - times[k]) > 0 then WindowSeconds - (now - times[k]) else 0
  }

  /** The list after the gate: what is kept, then the entry time `now`. */
  function Admitted(times: seq<int>, now: int): seq<int> {
    Kept(times, now) + [now]
  }

  /**
   * Trimming pops exactly the leading entries whose age is at least a window:
   * every popped entry is that old, and (by Stale's contract) the first one
   * kept is younger.
   */
  lemma {:induction false} TrimPopsExactlyStale(times: seq<int>, now: int)
    ensures forall i :: 0 <= i < Stale(times, now) ==> now - times[i] >= WindowSeconds
    decreases |times|
  {
    if |times| > 0 && now - times[0] >= WindowSeconds {
      var rest := times[1..];
      TrimPopsExactlyStale(rest, now);
      forall i | 0 <= i < Stale(times, now) ensures now - times[i] >= WindowSeconds {
        if i > 0 { assert times[i] == rest[i - 1]; }
      }
    }
  }

  /** On a sorted list no entry that survives trimming is a window old. */
  lemma {:induction false} TrimLeavesOnlyRecent(times: seq<int>, now: int)
    requires Sorted(times)
    ensures forall i :: 0 <= i < |Trim(times, now)| ==> now - Trim(times, now)[i] < WindowSeconds
  {
    var k := Stale(times, now);
    var t := Trim(times, now);
    forall i | 0 <= i < |t| ensures now - t[i] < WindowSeconds {
      assert t[i] == times[k + i] && t[0] == times[k] <= times[k + i];
    }
  }

  /**
   * The sleep is taken only when the trimmed list is full and is then
   * `WindowSeconds - (now - oldest)`, which is strictly positive (so the
   * source's `wait_time > 0` test never fails) and, when no entry lies in
   * the future, at most a window.
   */
  lemma {:induction false} WaitBounds(times: seq<int>, now: int)
    ensures |Trim(times, now)| >= RequestLimit ==>
      Wait(times, now) == WindowSeconds - (now - Trim(times, now)[0]) && Wait(times, now) > 0
    ensures |Trim(times, now)| < RequestLimit ==> Wait(times, now) == 0
    ensures NotAfter(times, now) ==> Wait(times, now) <= WindowSeconds
  {
    var k := Stale(times, now);
    if k < |times| {
      assert Trim(times, now)[0] == times[k];
    }
  }

  /**
   * What the gate does to the list: the last entry is the entry time `now`
   * (not the time after any sleep), the entries before it are a tail of the
   * old list in their old order, and the list grows beyond `RequestLimit`
   * only if it was already beyond it.
   */
  lemma {:induction false} AdmittedShape(times: seq<int>, now: int)
    ensures |Admitted(times, now)| >= 1 && Admitted(times, now)[|Admitted(times, now)| - 1] == now
    ensures SuffixOf(Admitted(times, now)[..|Admitted(times, now)| - 1], times)
    ensures |Admitted(times, now)| <= RequestLimit || |Admitted(times, now)| <= |times|
  {
    var u := Kept(times, now);
    assert Admitted(times, now)[..|Admitted(times, now)| - 1] == u;
  }

  lemma {:induction false} SuffixKeepsOrder(u: seq<int>, s: seq<int>, now: int)
    requires SuffixOf(u, s) && Sorted(s) && NotAfter(s, now)
    ensures Sorted(u) && NotAfter(u, now)
  {
    var off := |s| - |u|;
    forall i, j | 0 <= i < j < |u| ensures u[i] <= u[j] {
      assert u[i] == s[off + i] && u[j] == s[off + j];
    }
    forall i | 0 <= i < |u| ensures u[i] <= now {
      assert u[i] == s[off + i];
    }
  }

  lemma {:induction false} AppendKeepsOrder(u: seq<int>, now: int)
    requires Sorted(u) && NotAfter(u, now)
    ensures Sorted(u + [now]) && NotAfter(u + [now], now)
  {
    var r := u + [now];
    forall i, j | 0 <= i < j < |r| ensures r[i] <= r[j] {
      assert r[i] == u[i];
      if j < |u| { assert r[j] == u[j]; }
    }
    forall i | 0 <= i < |r| ensures r[i] <= now {
      if i < |u| { assert r[i] == u[i]; }
    }
  }

  /**
   * The gate keeps its invariant: a list of at most `RequestLimit` entries in
   * ascending order stays so when the clock has not gone backwards.
   */
  lemma {:induction false} AdmittedKeepsWindow(times: seq<int>, now: int)
    requires |times| <= RequestLimit && Sorted(times) && NotAfter(times, now)
    ensures |Admitted(times, now)| <= RequestLimit
    ensures Sorted(Admitted(times, now)) && NotAfter(Admitted(times, now), now)
  {
    var u := Kept(times, now);
    assert SuffixOf(u, times);
    SuffixKeepsOrder(u, times, now);
    AppendKeepsOrder(u, now);
  }

  /** The shared `request_times` list. */
  class Limiter {
    var requestTimes: seq<int>

    constructor ()
      ensures requestTimes == []
    {
      requestTimes := [];
    }

    /** `wait_for_rate_limit` entered at clock `now`; returns the seconds slept. */
    method WaitForRateLimit(now: int) returns (wait: int)
      modifies this
      ensures wait == Wait(old(requestTimes), now)
      ensures requestTimes == Admitted(old(requestTimes), now)
      ensures requestTimes[|requestTimes| - 1] == now
      ensures |old(requestTimes)| <= RequestLimit ==> |requestTimes| <= RequestLimit
    {
      ghost var before := requestTimes;
      while |requestTimes| > 0 && now - requestTimes[0] >= WindowSeconds
        invariant Trim(requestTimes, now) == Trim(before, now)
        decreases |requestTimes|
      {
        requestTimes := requestTimes[1..];
      }
      assert requestTimes == Trim(before, now);
      wait := 0;
      if |requestTimes| >= RequestLimit {
        var waitTime := WindowSeconds - (now - requestTimes[0]);
        if waitTime > 0 {
          wait := waitTime;
        }
        requestTimes := requestTimes[1..];
      }
      requestTimes := requestTimes + [now];
      AdmittedShape(before, now);
    }
  }
}
