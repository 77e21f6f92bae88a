/** SDM26/benji2_to_motec.py: the SDM26 logger's MoTeC decoder. The prefix
    counts one terminator byte, nothing is skipped on a short prefix, the
    channels come from create_devices and configure_devices, one terminator
    byte is skipped and nothing is peeked. The `while data` loop first tests
    the header bytes, keeps complete samples only and stores no counter.
    The decoder then estimates the sample rate from the first two time
    stamps, falling back to 500 Hz. */
module Sdm26Motec {
  import opened Common
  import opened Bytes
  import opened Text
  import opened Devices
  import opened Frames
  import opened Benji2
  import opened Writers

  const Rev: Revision :=
    Revision(1, false, Standard, FromCounts, CreateAndConfigure, 1, NoPeek, false, CompleteWhileData)

  /** What parseBenji2File returns: the samples, the rate in Hz and the
      channels. */
  datatype Recording = Recording(samples: seq<seq<real>>, freq: int, devices: seq<Device>)

  /** Python's round on a number: the nearest integer, and the even one of
      the two when the number lies half-way between them. */
  function RoundHalfEven(x: real): (n: int)
    ensures -0.5 <= x - n as real <= 0.5
    ensures x - n as real == 0.5 || x - n as real == -0.5 ==> n % 2 == 0
  {
    var f := x.Floor;
    var d := x - f as real;
    if d < 0.5 then f
    else if d > 0.5 then f + 1
    else if f % 2 == 0 then f
    else f + 1
  }

  /** The two properties of RoundHalfEven pin it down: any integer within
      a half of x that is even on a tie is RoundHalfEven(x). */
  lemma RoundUnique(x: real, m: int)
    requires -0.5 <= x - m as real <= 0.5
    requires x - m as real == 0.5 || x - m as real == -0.5 ==> m % 2 == 0
    ensures m == RoundHalfEven(x)
  {
    var n := RoundHalfEven(x);
    assert -1.0 <= n as real - m as real <= 1.0;
  }

  /** The rate the decoder reports for its samples: 500 Hz with fewer than
      two; otherwise 1 over the first time step, rounded. Indexing an empty
      sample raises IndexError and a zero time step ZeroDivisionError. */
  function Rate(samples: seq<seq<real>>): (r: Result<int>)
    ensures |samples| < 2 ==> r == Success(500)
    ensures r == Failure(IndexError) <==> |samples| >= 2 && (|samples[0]| == 0 || |samples[1]| == 0)
    ensures r == Failure(ZeroDivisionError) <==>
      |samples| >= 2 && |samples[0]| > 0 && |samples[1]| > 0 && samples[1][0] == samples[0][0]
    ensures r.Failure? ==> r.error == IndexError || r.error == ZeroDivisionError
    ensures r.Success? && |samples| >= 2 ==>
      var step := samples[1][0] - samples[0][0];
      step != 0.0 && -0.5 <= 1.0 / step - r.value as real <= 0.5
  {
    if |samples| < 2 then Success(500)
    else if |samples[1]| == 0 || |samples[0]| == 0 then Failure(IndexError)
    else
      var step := samples[1][0] - samples[0][0];
      if step == 0.0 then Failure(ZeroDivisionError) else Success(RoundHalfEven(1.0 / step))
  }

  /** Samples one step apart report the rounded reciprocal of the step:
      samples 0.002 s apart report 500 Hz. */
  lemma RateOfStep(t0: real, step: real, a: seq<real>, b: seq<real>, rest: seq<seq<real>>)
    requires step != 0.0 && |a| > 0 && |b| > 0 && a[0] == t0 && b[0] == t0 + step
    ensures Rate([a, b] + rest) == Success(RoundHalfEven(1.0 / step))
    ensures step == 0.002 ==> Rate([a, b] + rest) == Success(500)
  {
    var ss := [a, b] + rest;
    assert ss[0] == a && ss[1] == b;
    if step == 0.002 {
      RoundUnique(1.0 / step, 500);
    }
  }

  /** The recording of a run's samples and channels, or the rate's error. */
  function RecordingOf(ss: seq<seq<real>>, ds: seq<Device>): (r: Parse<Recording>)
    ensures r.Raised? <==> Rate(ss).Failure?
    ensures r.Written? ==> r.value.samples == ss && r.value.devices == ds && Rate(ss) == Success(r.value.freq)
    ensures !r.Skipped? && !r.Hangs?
  {
    match Rate(ss)
    case Failure(e) => Raised(e)
    case Success(f) => Written(Recording(ss, f, ds))
  }

  /** The recording parseBenji2File returns for one file. Every prefix is
      a length it accepts, the loop always returns, and the only exceptions
      are the header's UTF-8 decode and a zero first time step. */
  function Decode(file: seq<byte>, utf8: Utf8): (r: Parse<Recording>)
    ensures !r.Skipped? && !r.Hangs?
    ensures Announced(file, 1) >= -1 && (r == Raised(UnicodeDecodeError) <==> HeaderText(file, 1, utf8).None?)
    ensures r.Raised? ==> r.error == UnicodeDecodeError || r.error == ZeroDivisionError
    ensures r.Written? ==> Rate(r.value.samples) == Success(r.value.freq)
  {
    PrefixBytes(file, 1);
    RunOutcome(Rev, file, utf8);
    RunReturns(Rev, file, utf8);
    match RunSamples(Rev, file, utf8)
    case Skipped => Skipped
    case Hangs => Hangs
    case Raised(e) => Raised(e)
    case Written((ss, ds)) =>
      RecordingOf(ss, ds)
  }

  /** The loop starts right after the terminator byte, and its `while data`
      first tests the header bytes. */
  lemma Start(file: seq<byte>, w: nat)
    requires Announced(file, 1) >= -1
    ensures LoopStart(Rev, file, w) == Min(HeaderEnd(file, 1) + 1, |file|)
    ensures GuardBytes(Rev, file, w) == |HeaderBytes(file, 1).0|
  {
  }

  /** A written recording: the channels are the header's, and the samples
      are those of the WhileDataOf lines of those channels, without the
      counter. */
  lemma Rows(file: seq<byte>, utf8: Utf8)
    ensures var r := Decode(file, utf8);
      r.Written? ==> (Announced(file, 1) >= -1 && HeaderText(file, 1, utf8).Some? &&
        var ds := ChannelsOf(HeaderText(file, 1, utf8).value, Rev).1;
        r.value.devices == ds &&
        exists lines :: WhileDataOf(Rev, file, ds, lines) && Whole(lines) && r.value.samples == Samples(lines))
  {
    var r := Decode(file, utf8);
    if r.Written? {
      PrefixBytes(file, 1);
      RunOutcome(Rev, file, utf8);
      RunBody(Rev, file, utf8);
      RunRows(Rev, file, utf8);
      var b := Run(Rev, file, utf8).value;
      BodyLines(Rev, file, b);
      CutAll(b.front.devices);
      var lines := Lines(b.front.devices, b.rows);
      FileWhileData(Rev, file, b.front.devices, lines);
      assert r.value.samples == Samples(lines);
    }
  }
}
