/** The observation schedule: which model steps are observed. */
module Schedule {

  function Abs(x: real): real { if x < 0.0 then -x else x }

  /** numpy.argmin over |t - x|: the first of the nearest grid points among t[..n]. */
  function NearestBelow(t: seq<real>, x: real, n: nat): (i: nat)
    requires 0 < n <= |t|
    ensures i < n && forall j :: 0 <= j < n ==> Abs(t[i] - x) <= Abs(t[j] - x)
    ensures forall j :: 0 <= j < i ==> Abs(t[i] - x) < Abs(t[j] - x)
  {
    if n == 1 then 0
    else
      var i := NearestBelow(t, x, n - 1);
      if Abs(t[n - 1] - x) < Abs(t[i] - x) then n - 1 else i
  }

  function Nearest(t: seq<real>, x: real): (i: nat)
    requires |t| > 0
    ensures i < |t|
  {
    NearestBelow(t, x, |t|)
  }

  function Gap(t: seq<real>, i: int): real
    requires 0 < i < |t|
  {
    t[i] - t[i - 1]
  }

  /** Smallest of the gaps 1 .. n. */
  function LeastGap(t: seq<real>, n: nat): (g: real)
    requires 0 < n < |t|
    ensures forall i :: 0 < i <= n ==> g <= Gap(t, i)
    ensures exists i :: 0 < i <= n && g == Gap(t, i)
  {
    if n == 1 then Gap(t, 1)
    else
      var rest := LeastGap(t, n - 1);
      if Gap(t, n) < rest then Gap(t, n) else rest
  }

  /** Smallest step of the grid, one for a single point. */
  function GridStep(t: seq<real>): real
    requires |t| > 0
  {
    if |t| > 1 then LeastGap(t, |t| - 1) else 1.0
  }

  /** A requested time is observed at its nearest step if that step is within half the grid step. */
  predicate Accepted(t: seq<real>, x: real)
    requires |t| > 0
  {
    Abs(t[Nearest(t, x)] - x) <= 0.5 * GridStep(t)
  }

  ghost predicate StrictlyIncreasing(s: seq<int>) { forall i, j :: 0 <= i < j < |s| ==> s[i] < s[j] }

  /** sorted(set(...)), one element at a time. */
  function Inserted(s: seq<int>, x: int): (r: seq<int>)
    requires StrictlyIncreasing(s)
    ensures StrictlyIncreasing(r) && forall y :: y in r <==> y in s || y == x
  {
    if s == [] then [x]
    else
      var last := s[|s| - 1];
      if last < x then s + [x]
      else if last == x then s
      else
        var r := Inserted(s[..|s| - 1], x);
        assert forall y :: y in s <==> y in s[..|s| - 1] || y == last;
        assert forall i :: 0 <= i < |r| ==> r[i] in r;
        assert forall i :: 0 <= i < |s| - 1 ==> s[i] < last;
        r + [last]
  }

  function SortedSet(s: seq<int>): (r: seq<int>)
    ensures StrictlyIncreasing(r) && forall y :: y in r <==> y in s
  {
    if s == [] then [] else Inserted(SortedSet(s[..|s| - 1]), s[|s| - 1])
  }

  function Max(a: real, b: real): real { if a >= b then a else b }

  function Min(a: real, b: real): real { if a <= b then a else b }

  /** The window actually used: the configured one cut to the model's times. */
  function First(t: seq<real>, obsStart: real): real
    requires |t| > 0
  {
    Max(obsStart, t[0])
  }

  function Last(t: seq<real>, obsMax: real): real
    requires |t| > 0
  {
    Min(obsMax, t[|t| - 1])
  }

  /** Requested time number j. */
  function Request(start: real, freq: real, j: int): real { start + j as real * freq }

  /** Step i is the accepted nearest step of one of the first n requests. */
  predicate Matched(t: seq<real>, req: seq<real>, n: int, i: int)
    requires |t| > 0 && n <= |req|
  {
    exists j :: 0 <= j < n && Accepted(t, req[j]) && i == Nearest(t, req[j])
  }

  /** The requested times: from the first on, every freq, as long as they fit. */
  method Requests(start: real, stop: real, freq: real) returns (req: seq<real>)
    requires freq > 0.0 && start <= stop
    ensures forall j :: 0 <= j < |req| ==> req[j] == Request(start, freq, j) && start <= req[j] <= stop
    ensures Request(start, freq, |req|) > stop
  {
    var count := ((stop - start) / freq).Floor + 1;
    RequestCount(stop - start, freq);
    req := seq(count, j => Request(start, freq, j));
    forall j | 0 <= j < |req| ensures start <= Request(start, freq, j) <= stop {
      RequestInWindow(stop - start, freq, j);
    }
  }

  /** Match each requested time to its nearest step; keep the distinct steps in order. */
  method MatchRequests(t: seq<real>, req: seq<real>) returns (idx: seq<int>)
    requires t != []
    ensures StrictlyIncreasing(idx) && forall i :: i in idx <==> Matched(t, req, |req|, i)
  {
    var dtGrid := GridStep(t);
    var found: seq<int> := [];
    for j := 0 to |req|
      invariant forall i :: i in found <==> Matched(t, req, j, i)
    {
      var i := Nearest(t, req[j]);
      forall k ensures Matched(t, req, j + 1, k) <==> Matched(t, req, j, k) || (Accepted(t, req[j]) && k == i) {}
      if Abs(t[i] - req[j]) <= 0.5 * dtGrid {
        found := found + [i];
      }
    }
    idx := SortedSet(found);
  }

  /** generate_observation_schedule: requested times and observed steps; errors give an empty schedule. */
  method GenerateSchedule(t: seq<real>, freq: real, obsStart: real, obsMax: real)
      returns (req: seq<real>, idx: seq<int>)
    ensures if t == [] || freq <= 0.0 || First(t, obsStart) > Last(t, obsMax) then req == [] && idx == []
            else
              && (forall j :: 0 <= j < |req| ==>
                   req[j] == Request(First(t, obsStart), freq, j) && First(t, obsStart) <= req[j] <= Last(t, obsMax))
              && Request(First(t, obsStart), freq, |req|) > Last(t, obsMax)
              && forall i :: i in idx <==> Matched(t, req, |req|, i)
    ensures StrictlyIncreasing(idx) && forall i :: i in idx ==> 0 <= i < |t|
  {
    if t == [] { return [], []; }
    var start, stop := First(t, obsStart), Last(t, obsMax);
    if freq <= 0.0 || start > stop { return [], []; }
    req := Requests(start, stop, freq);
    idx := MatchRequests(t, req);
  }

  lemma RequestCount(width: real, freq: real)
    requires width >= 0.0 && freq > 0.0
    ensures (width / freq).Floor >= 0
    ensures ((width / freq).Floor + 1) as real * freq > width
  {
    var n := (width / freq).Floor;
    assert width / freq >= 0.0 && width == width / freq * freq;
    assert (n + 1) as real > width / freq;
    assert ((n + 1) as real - width / freq) * freq > 0.0;
  }

  lemma RequestInWindow(width: real, freq: real, j: nat)
    requires width >= 0.0 && freq > 0.0 && j <= (width / freq).Floor
    ensures 0.0 <= j as real * freq <= width
  {
    assert j as real <= width / freq && width == width / freq * freq;
    assert (width / freq - j as real) * freq >= 0.0;
  }

  /** Every scheduled step is in range and within half the smallest grid gap of some requested time. */
  lemma ScheduledNearRequest(t: seq<real>, req: seq<real>, i: int)
    requires t != [] && Matched(t, req, |req|, i)
    ensures 0 <= i < |t|
    ensures exists j :: 0 <= j < |req| && 2.0 * Abs(t[i] - req[j]) <= (if |t| > 1 then LeastGap(t, |t| - 1) else 1.0)
  {
  }

  /** Two requests observed at one step are at most a grid step apart: longer intervals are never merged. */
  lemma MergedRequestsAreClose(t: seq<real>, x: real, y: real)
    requires t != [] && Accepted(t, x) && Accepted(t, y) && Nearest(t, x) == Nearest(t, y)
    ensures Abs(x - y) <= GridStep(t)
  {
  }

  /** The window: the later of the configured start and the first time, to the earlier of the end and the last time. */
  lemma WindowLaw(t: seq<real>, obsStart: real, obsMax: real)
    requires |t| > 0
    ensures First(t, obsStart) >= obsStart && First(t, obsStart) >= t[0] && First(t, obsStart) in {obsStart, t[0]}
    ensures Last(t, obsMax) <= obsMax && Last(t, obsMax) <= t[|t| - 1] && Last(t, obsMax) in {obsMax, t[|t| - 1]}
  {
  }

  /** Requests begin at the start and follow each other at the interval. */
  lemma RequestSpacing(start: real, freq: real, j: int)
    ensures Request(start, freq, 0) == start && Request(start, freq, j + 1) - Request(start, freq, j) == freq
  {
    assert (j + 1) as real * freq == j as real * freq + freq;
  }

  /** The step of the grid is the least difference of neighbours. */
  lemma GridStepLaw(t: seq<real>)
    requires |t| > 1
    ensures forall i :: 0 <= i < |t| - 1 ==> GridStep(t) <= t[i + 1] - t[i]
    ensures exists i :: 0 <= i < |t| - 1 && GridStep(t) == t[i + 1] - t[i]
  {
    forall i | 0 <= i < |t| - 1 ensures GridStep(t) <= t[i + 1] - t[i] {
      assert Gap(t, i + 1) == t[i + 1] - t[i];
    }
    var k :| 0 < k <= |t| - 1 && GridStep(t) == Gap(t, k);
    assert GridStep(t) == t[k - 1 + 1] - t[k - 1];
  }

  /** A request is accepted exactly when some time of the grid is within half a grid step of it. */
  lemma AcceptedIff(t: seq<real>, x: real)
    requires |t| > 0
    ensures Accepted(t, x) <==> exists i :: 0 <= i < |t| && 2.0 * Abs(t[i] - x) <= GridStep(t)
  {
    var n := Nearest(t, x);
    if exists i :: 0 <= i < |t| && 2.0 * Abs(t[i] - x) <= GridStep(t) {
      var i :| 0 <= i < |t| && 2.0 * Abs(t[i] - x) <= GridStep(t);
      assert Abs(t[n] - x) <= Abs(t[i] - x);
    }
  }
}
