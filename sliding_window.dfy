/**
 * What the gate guarantees over a run of calls. A single caller issues the
 * calls one after another: each call enters `gap` seconds after the previous
 * one returned, and a call that sleeps returns (is released to the model
 * provider) `Wait` seconds after it entered.
 *
 * `wait_for_rate_limit` records the time at which a call ENTERED, not the
 * time at which it was released. A call that slept is therefore remembered
 * as older than it is, and the next window can admit a full
 * `RequestLimit` calls beside it: `AsWrittenAdmitsBurst` exhibits sixteen
 * releases within the same second. Recording the release time instead
 * (`AdmittedAtRelease`) keeps every `RequestLimit + 1` consecutive releases
 * at least a window apart (`CorrectedGateIsSpaced`).
 */
module SlidingWindow {
  import opened RateLimiter

  /** No `RequestLimit + 1` releases fall within less than one window. */
  predicate Spaced(h: seq<int>) {
    forall i, j :: 0 <= i && i + RequestLimit <= j < |h| ==> h[j] - h[i] >= WindowSeconds
  }

  /** The gate with the release time recorded in place of the entry time. */
  function AdmittedAtRelease(times: seq<int>, now: int): seq<int> {
    Kept(times, now) + [now + Wait(times, now)]
  }

  /** Release times of successive calls through the corrected gate. */
  function ReleasesCorrected(times: seq<int>, clock: int, gaps: seq<nat>): (h: seq<int>)
    ensures |h| == |gaps|
    decreases |gaps|
  {
    if |gaps| == 0 then []
    else
      var now := clock + gaps[0];
      var release := now + Wait(times, now);
      [release] + ReleasesCorrected(AdmittedAtRelease(times, now), release, gaps[1..])
  }

  function Repeat(x: int, k: nat): (s: seq<int>)
    ensures |s| == k && forall i :: 0 <= i < k ==> s[i] == x
  {
    seq(k, _ => x)
  }

  // ---------------------------------------------------------------------
  // The gate as written admits a burst
  // ---------------------------------------------------------------------

  lemma {:induction false} TrimAllStale(x: int, k: nat, now: int)
    requires now - x >= WindowSeconds
    ensures Trim(Repeat(x, k), now) == []
    decreases k
  {
    if k > 0 {
      assert Repeat(x, k)[1..] == Repeat(x, k - 1);
      TrimAllStale(x, k - 1, now);
    }
  }

  /** A call at time `x` while the list holds `k < RequestLimit` entries from `x`. */
  lemma {:induction false} AdmitWithRoom(x: int, k: nat)
    requires k < RequestLimit
    ensures Wait(Repeat(x, k), x) == 0 && Admitted(Repeat(x, k), x) == Repeat(x, k + 1)
  {
    var s := Repeat(x, k);
    assert Stale(s, x) == 0;
    assert Kept(s, x) == s;
    assert s + [x] == Repeat(x, k + 1);
  }

  /** A call at time `x` while the list is full of entries from `x`: it sleeps a whole window. */
  lemma {:induction false} AdmitWhenFull(x: int)
    ensures Wait(Repeat(x, RequestLimit), x) == WindowSeconds
    ensures Admitted(Repeat(x, RequestLimit), x) == Repeat(x, RequestLimit)
  {
    var full := Repeat(x, RequestLimit);
    assert Stale(full, x) == 0;
    assert Dropped(full, x) == 1;
    assert Wait(full, x) == WindowSeconds - (x - full[0]);
    assert full[1..] + [x] == full;
  }

  /** A call a window or more after every entry: the list is emptied, no sleep. */
  lemma {:induction false} AdmitAfterWindow(x: int, k: nat, now: int)
    requires now - x >= WindowSeconds
    ensures Wait(Repeat(x, k), now) == 0 && Admitted(Repeat(x, k), now) == Repeat(now, 1)
  {
    TrimAllStale(x, k, now);
    assert Kept(Repeat(x, k), now) == [];
  }

  /**
   * Thirty-one calls of the gate as written, back to back from a fresh gate
   * at time `clock`: each call enters when the previous one is released.
   * The sixteenth sleeps until `clock + 60` but is recorded at `clock`, and
   * the fifteen after it find that entry stale and pass at `clock + 60`
   * without sleeping: sixteen releases within the same second.
   */
  method AsWrittenAdmitsBurst(clock: int) returns (releases: seq<int>)
    ensures |releases| == 31
    ensures releases[15] == clock + 60 && releases[30] == clock + 60
    ensures !Spaced(releases)
  {
    var gate := new Limiter();
    releases := [];
    // the first fifteen calls fill the list and pass at once
    while |releases| < RequestLimit
      invariant |releases| <= RequestLimit
      invariant gate.requestTimes == Repeat(clock, |releases|)
    {
      AdmitWithRoom(clock, |releases|);
      var wait := gate.WaitForRateLimit(clock);
      releases := releases + [clock + wait];
    }
    // the sixteenth sleeps a whole window and is recorded at its entry time
    AdmitWhenFull(clock);
    var wait := gate.WaitForRateLimit(clock);
    releases := releases + [clock + wait];
    // the seventeenth enters a window after every entry and empties the list
    AdmitAfterWindow(clock, RequestLimit, clock + 60);
    wait := gate.WaitForRateLimit(clock + 60);
    releases := releases + [clock + 60 + wait];
    // the fourteen after it find room and pass at once too
    while |releases| < 31
      invariant 17 <= |releases| <= 31
      invariant gate.requestTimes == Repeat(clock + 60, |releases| - 16)
      invariant releases[15] == clock + 60
      invariant forall i :: 16 <= i < |releases| ==> releases[i] == clock + 60
    {
      AdmitWithRoom(clock + 60, |releases| - 16);
      wait := gate.WaitForRateLimit(clock + 60);
      releases := releases + [clock + 60 + wait];
    }
    assert releases[30] - releases[15] < WindowSeconds;
  }

  // ---------------------------------------------------------------------
  // The corrected gate keeps releases a window apart
  // ---------------------------------------------------------------------

  /** The first `n` releases of `h` all lie at least a window before `clock`. */
  ghost predicate OldBy(h: seq<int>, n: int, clock: int) {
    forall i :: 0 <= i < n && i < |h| ==> clock - h[i] >= WindowSeconds
  }

  /**
   * What the corrected gate keeps about its list `times`, the releases `h`
   * so far and the time `clock` of the last release: the list is a tail of
   * `h` of at most `RequestLimit` entries, every release no longer in the
   * list lies a window before `clock`, and `h` is spaced.
   */
  ghost predicate RunInv(times: seq<int>, h: seq<int>, clock: int) {
    && |times| <= RequestLimit
    && SuffixOf(times, h)
    && OldBy(h, |h| - |times|, clock)
    && Spaced(h)
  }

  lemma {:induction false} SuffixTrans(a: seq<int>, b: seq<int>, c: seq<int>)
    requires SuffixOf(a, b) && SuffixOf(b, c)
    ensures SuffixOf(a, c)
  {
    forall k | 0 <= k < |a| ensures a[k] == c[|c| - |a| + k] {
      assert a[k] == b[|b| - |a| + k];
    }
  }

  lemma {:induction false} SuffixAppend(u: seq<int>, h: seq<int>, r: int)
    requires SuffixOf(u, h)
    ensures SuffixOf(u + [r], h + [r])
  {
    var u', h' := u + [r], h + [r];
    forall k | 0 <= k < |u'| ensures u'[k] == h'[|h'| - |u'| + k] {
      if k < |u| { assert u'[k] == u[k] && h'[|h'| - |u'| + k] == h[|h| - |u| + k]; }
    }
  }

  /** Once the list is at most `RequestLimit - 1` entries before `r` is added, `r` keeps `h` spaced. */
  lemma {:induction false} SpacedExtend(h: seq<int>, r: int, keep: nat)
    requires Spaced(h) && keep < RequestLimit && OldBy(h, |h| - keep, r)
    ensures Spaced(h + [r])
  {
    var h' := h + [r];
    forall i, j | 0 <= i && i + RequestLimit <= j < |h'| ensures h'[j] - h'[i] >= WindowSeconds {
      assert h'[i] == h[i];
      if j < |h| { assert h'[j] == h[j]; }
    }
  }

  /** The releases that leave the list in one call are all a window before its release `r`. */
  lemma {:induction false} DroppedStep(times: seq<int>, h: seq<int>, clock: int, now: int)
    requires |times| <= RequestLimit && SuffixOf(times, h) && OldBy(h, |h| - |times|, clock) && clock <= now
    ensures OldBy(h, |h| - |Kept(times, now)|, now + Wait(times, now))
  {
    var t := Trim(times, now);
    var r := now + Wait(times, now);
    var n := |h|;
    TrimPopsExactlyStale(times, now);
    WaitBounds(times, now);
    forall i | 0 <= i < n - |Kept(times, now)| ensures r - h[i] >= WindowSeconds {
      if i < n - |times| {
      } else if i < n - |t| {
        assert h[i] == times[i - (n - |times|)];
      } else {
        assert |t| >= RequestLimit && h[i] == times[|times| - |t|] == t[0];
      }
    }
  }

  lemma {:induction false} CorrectedStep(times: seq<int>, h: seq<int>, clock: int, now: int)
    requires RunInv(times, h, clock) && clock <= now
    ensures RunInv(AdmittedAtRelease(times, now), h + [now + Wait(times, now)], now + Wait(times, now))
  {
    var u := Kept(times, now);
    var r := now + Wait(times, now);
    assert |u| < RequestLimit;
    assert SuffixOf(u + [r], h + [r]) by {
      SuffixTrans(u, times, h);
      SuffixAppend(u, h, r);
    }
    assert OldBy(h, |h| - |u|, r) by {
      DroppedStep(times, h, clock, now);
    }
    assert OldBy(h + [r], |h + [r]| - |u + [r]|, r) by {
      forall i | 0 <= i < |h| - |u| ensures (h + [r])[i] == h[i] { }
    }
    assert Spaced(h + [r]) by {
      SpacedExtend(h, r, |u|);
    }
  }

  /** One call of the corrected gate: its release, then the calls after it. */
  lemma {:induction false} CorrectedUnfold(times: seq<int>, clock: int, gaps: seq<nat>, now: int, release: int)
    requires |gaps| > 0 && now == clock + gaps[0] && release == now + Wait(times, now)
    ensures ReleasesCorrected(times, clock, gaps)
        == [release] + ReleasesCorrected(AdmittedAtRelease(times, now), release, gaps[1..])
  {
    assert ReleasesCorrected(times, clock, gaps)
        == [clock + gaps[0] + Wait(times, clock + gaps[0])]
           + ReleasesCorrected(AdmittedAtRelease(times, clock + gaps[0]), clock + gaps[0] + Wait(times, clock + gaps[0]), gaps[1..]);
  }

  lemma {:induction false} AppendShift(h: seq<int>, tail: seq<int>, r: int, rest: seq<int>)
    requires tail == [r] + rest
    ensures h + tail == (h + [r]) + rest
  {
  }

  lemma {:induction false} CorrectedSpacedFrom(times: seq<int>, h: seq<int>, clock: int, gaps: seq<nat>)
    requires RunInv(times, h, clock)
    ensures Spaced(h + ReleasesCorrected(times, clock, gaps))
    decreases |gaps|
  {
    if |gaps| == 0 {
      assert h + ReleasesCorrected(times, clock, gaps) == h;
    } else {
      var now := clock + gaps[0];
      var release := now + Wait(times, now);
      CorrectedStep(times, h, clock, now);
      CorrectedSpacedFrom(AdmittedAtRelease(times, now), h + [release], release, gaps[1..]);
      CorrectedUnfold(times, clock, gaps, now, release);
      AppendShift(h, ReleasesCorrected(times, clock, gaps), release,
                  ReleasesCorrected(AdmittedAtRelease(times, now), release, gaps[1..]));
    }
  }

  /**
   * From a fresh gate, whatever the starting time and however long the
   * caller idles between calls, any `RequestLimit + 1` releases of the
   * corrected gate span at least a window.
   */
  lemma {:induction false} CorrectedGateIsSpaced(clock: int, gaps: seq<nat>)
    ensures Spaced(ReleasesCorrected([], clock, gaps))
  {
    CorrectedSpacedFrom([], [], clock, gaps);
    assert [] + ReleasesCorrected([], clock, gaps) == ReleasesCorrected([], clock, gaps);
  }
}
