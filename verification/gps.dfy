/** velocity-estimation.py: GPSProcessing, the outlier filter on GPS speed.
    A reading above 50 m/s is taken for a glitch and replaced by the value
    the filter last wrote; a reading of at most 50 m/s is kept. The output
    array starts as zeros, so a glitch at index 0 reads index -1, which
    Python resolves to the still-zero last slot. Python floats are modelled
    as exact reals. */
module Gps {

  /** The largest speed the filter keeps, in m/s; the test is strict. */
  const Limit: real := 50.0

  /** The value the filter holds at index i: the most recent reading at or
      before i that is at most Limit, or 0 when there is none. */
  function Held(v: seq<real>, i: nat): (x: real)
    requires i < |v|
    ensures x <= Limit
  {
    if v[i] <= Limit then v[i]
    else if i == 0 then 0.0
    else Held(v, i - 1)
  }

  /** Held is the last kept reading: the reading at the latest index j <= i
      that is at most Limit, or 0 when every reading up to i exceeds it. */
  lemma {:induction false} HeldIsLastKept(v: seq<real>, i: nat)
    requires i < |v|
    ensures (exists j :: 0 <= j <= i && v[j] <= Limit && Held(v, i) == v[j] && forall m :: j < m <= i ==> v[m] > Limit)
      || (Held(v, i) == 0.0 && forall m :: 0 <= m <= i ==> v[m] > Limit)
  {
    if v[i] <= Limit {
      assert Held(v, i) == v[i];
    } else if i > 0 {
      HeldIsLastKept(v, i - 1);
    }
  }

  /** The filtered readings, index by index. */
  function Filtered(v: seq<real>): (out: seq<real>)
    ensures |out| == |v|
    ensures forall i :: 0 <= i < |v| ==> out[i] == Held(v, i)
  {
    seq(|v|, i requires 0 <= i < |v| => Held(v, i))
  }

  /** Python's a[i] for -n <= i < n: a negative index counts from the end. */
  function PyIndex(i: int, n: nat): (k: nat)
    requires -(n as int) <= i < n
    ensures k < n && (i >= 0 ==> k == i) && (i < 0 ==> k == n + i)
  {
    if i < 0 then n + i else i
  }

  /** GPSProcessing as the loop writes it: a zero array, then at each index
      either the reading or the array's entry at index i - 1. The result is
      the filtered readings: a reading of at most Limit is kept, a larger
      one becomes the previous output, and the first output is 0 when the
      first reading is too large. */
  method GpsProcessing(v: seq<real>) returns (proc: seq<real>)
    ensures proc == Filtered(v)
    ensures |proc| == |v|
    ensures forall i :: 0 <= i < |v| && v[i] <= Limit ==> proc[i] == v[i]
    ensures forall i :: 1 <= i < |v| && v[i] > Limit ==> proc[i] == proc[i - 1]
    ensures |v| > 0 && v[0] > Limit ==> proc[0] == 0.0
  {
    proc := seq(|v|, _ => 0.0);
    var i := 0;
    while i < |v|
      invariant 0 <= i <= |v| && |proc| == |v|
      invariant forall m :: 0 <= m < i ==> proc[m] == Held(v, m)
      invariant forall m :: i <= m < |v| ==> proc[m] == 0.0
    {
      if v[i] > Limit {
        proc := proc[i := proc[PyIndex(i - 1, |v|)]];
      } else {
        proc := proc[i := v[i]];
      }
      i := i + 1;
    }
  }

  /** Every filtered value is at most Limit, so the filter leaves its own
      output unchanged. */
  lemma HeldOfBounded(v: seq<real>, i: nat)
    requires i < |v|
    requires forall m :: 0 <= m < |v| ==> v[m] <= Limit
    ensures Held(v, i) == v[i]
  {
  }

  /** Filtering twice is filtering once. */
  lemma Idempotent(v: seq<real>)
    ensures Filtered(Filtered(v)) == Filtered(v)
  {
    var out := Filtered(v);
    forall i | 0 <= i < |out|
      ensures Filtered(out)[i] == out[i]
    {
      HeldOfBounded(out, i);
    }
  }

  /** The filter changes nothing exactly when no reading exceeds Limit. */
  lemma Unchanged(v: seq<real>)
    ensures Filtered(v) == v <==> forall i :: 0 <= i < |v| ==> v[i] <= Limit
  {
    if forall i :: 0 <= i < |v| ==> v[i] <= Limit {
      forall i | 0 <= i < |v|
        ensures Filtered(v)[i] == v[i]
      {
        HeldOfBounded(v, i);
      }
    }
  }

  /** A glitch run after a kept reading holds that reading: every output
      from the kept index to the end of the run repeats it. */
  lemma {:induction false} HoldsThroughRun(v: seq<real>, j: nat, i: nat)
    requires j <= i < |v| && v[j] <= Limit
    requires forall m :: j < m <= i ==> v[m] > Limit
    ensures Filtered(v)[i] == v[j]
  {
    if i > j {
      HoldsThroughRun(v, j, i - 1);
    }
  }
}
