/** The truncated pseudo-inverse of a spectrum of squared singular values. */
module Spectrum {
  import opened Sums

  /** What a singular value decomposition promises of its values, squared or not. */
  ghost predicate IsSpectrum(s: seq<real>)
  {
    && (forall i :: 0 <= i < |s| ==> s[i] >= 0.0)
    && (forall i, j :: 0 <= i <= j < |s| ==> s[i] >= s[j])
  }

  function Prefix(s: seq<real>, p: nat): real { Sum(Entries(s), 0, p) }

  /** The first length from p on whose prefix holds 99.9% of the total. */
  function Significant(s: seq<real>, p: nat): (k: nat)
    requires p <= |s| && Total(s) > 0.0
    ensures p <= k <= |s|
    decreases |s| - p
  {
    if p < |s| && Prefix(s, p) / Total(s) < 0.999 then Significant(s, p + 1) else p
  }

  /** How many values are inverted. */
  function Rank(s: seq<real>): (k: nat)
    ensures k <= |s|
  {
    if Total(s) > 0.0 then Significant(s, 0) else 0
  }

  /** Values of the kept prefix inverted, all others zero. */
  function TruncatedInverse(s: seq<real>): (t: seq<real>)
    ensures |t| == |s|
  {
    seq(|s|, i requires 0 <= i < |s| => if i < Rank(s) && s[i] != 0.0 then 1.0 / s[i] else 0.0)
  }

  lemma {:induction false} ZeroTail(s: seq<real>, p: nat)
    requires IsSpectrum(s) && p <= |s| && (p < |s| ==> s[p] == 0.0)
    ensures Prefix(s, p) == Total(s)
  {
    SumSplit(Entries(s), 0, p, |s|);
    SumConst(Entries(s), 0.0, p, |s|);
  }

  lemma {:induction false} SignificantIsLeast(s: seq<real>, p: nat)
    requires p <= |s| && Total(s) > 0.0
    ensures forall q :: p <= q < Significant(s, p) ==> Prefix(s, q) < 0.999 * Total(s)
    ensures Significant(s, p) < |s| ==> Prefix(s, Significant(s, p)) >= 0.999 * Total(s)
    decreases |s| - p
  {
    Percentage(Prefix(s, p), Total(s));
    if p < |s| && Prefix(s, p) / Total(s) < 0.999 {
      SignificantIsLeast(s, p + 1);
    }
  }

  lemma Percentage(a: real, t: real)
    requires t > 0.0
    ensures a / t < 0.999 <==> a < 0.999 * t
  {
    assert a == (a / t) * t;
  }

  /**
   * The kept prefix is the shortest holding at least 99.9% of the total; every kept value is positive,
   * so each division is defined, and everything after the prefix is zeroed.
   */
  lemma TruncationKeepsShortestPrefix(s: seq<real>)
    requires IsSpectrum(s) && Total(s) > 0.0
    ensures Prefix(s, Rank(s)) >= 0.999 * Total(s)
    ensures forall p :: 0 <= p < Rank(s) ==> Prefix(s, p) < 0.999 * Total(s)
    ensures forall i :: 0 <= i < Rank(s) ==> s[i] > 0.0 && TruncatedInverse(s)[i] * s[i] == 1.0
    ensures forall i :: Rank(s) <= i < |s| ==> TruncatedInverse(s)[i] == 0.0
  {
    SignificantIsLeast(s, 0);
    forall i | 0 <= i < Rank(s) ensures s[i] > 0.0 {
      if s[i] == 0.0 { ZeroTail(s, i); }
    }
  }

  lemma {:induction false} SumOfNonnegative(s: seq<real>, p: nat)
    requires IsSpectrum(s) && p <= |s|
    ensures Prefix(s, p) >= 0.0
    decreases p
  {
    if p > 0 { SumOfNonnegative(s, p - 1); }
  }

  /** A vanishing total means a vanishing spectrum: the guarded branch loses nothing. */
  lemma ZeroTotal(s: seq<real>)
    requires IsSpectrum(s) && Total(s) == 0.0
    ensures forall i :: 0 <= i < |s| ==> s[i] == 0.0
  {
    forall i | 0 <= i < |s| ensures s[i] == 0.0 {
      SumOfNonnegative(s, i);
      SumSplit(Entries(s), 0, i + 1, |s|);
      SumMonotone(_ => 0.0, Entries(s), i + 1, |s|);
      SumConst(_ => 0.0, 0.0, i + 1, |s|);
    }
  }

  /** One turn of the loop: keep and invert value i, or stop exactly at the rank. */
  lemma Turn(s: seq<real>, i: nat)
    requires IsSpectrum(s) && Total(s) > 0.0 && i < |s| && Rank(s) == Significant(s, i)
    ensures Prefix(s, i + 1) == Prefix(s, i) + s[i]
    ensures if Prefix(s, i) / Total(s) < 0.999
            then s[i] > 0.0 && TruncatedInverse(s)[i] == 1.0 / s[i] && Rank(s) == Significant(s, i + 1)
            else Rank(s) == i && forall k :: i <= k < |s| ==> TruncatedInverse(s)[k] == 0.0
  {
    TruncationKeepsShortestPrefix(s);
  }

  /** The in-place loop of compute_X5_modified over the squared singular values. */
  method Truncate(sig: array<real>) returns (nrsigma: nat)
    requires IsSpectrum(sig[..])
    modifies sig
    ensures sig[..] == TruncatedInverse(old(sig[..])) && nrsigma == Rank(old(sig[..]))
  {
    ghost var s := sig[..];
    var nrmin := sig.Length;
    var sigsum := Total(sig[..]);
    SumOfNonnegative(s, |s|);
    var sigsum1 := 0.0;
    nrsigma := 0;
    if sigsum == 0.0 {
      assert Rank(s) == 0;
      forall i | 0 <= i < nrmin { sig[i] := 0.0; }
      forall k | 0 <= k < nrmin ensures TruncatedInverse(s)[k] == 0.0 {}
    } else {
      for i := 0 to nrmin
        invariant nrsigma == i && sigsum1 == Prefix(s, i) && Rank(s) == Significant(s, i)
        invariant forall k :: 0 <= k < i ==> sig[k] == TruncatedInverse(s)[k]
        invariant forall k :: i <= k < nrmin ==> sig[k] == s[k]
      {
        Turn(s, i);
        if sigsum1 / sigsum < 0.999 {
          nrsigma := nrsigma + 1;
          sigsum1 := sigsum1 + sig[i];
          sig[i] := 1.0 / sig[i];
        } else {
          forall k | i <= k < nrmin { sig[k] := 0.0; }
          assert forall k :: 0 <= k < nrmin ==> sig[k] == TruncatedInverse(s)[k];
          break;
        }
      }
    }
    assert forall k :: 0 <= k < nrmin ==> sig[k] == TruncatedInverse(s)[k];
  }
}
