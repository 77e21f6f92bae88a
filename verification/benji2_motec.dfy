/** process_benji2_motec.py: the earlier logger's MoTeC decoder. The prefix
    counts two terminator bytes, the header keeps NUL characters, every
    channel is two bytes wide and big-endian with this file's own
    calibration table, two bytes follow the header, the first channel's
    two bytes are read and 4 bytes are sought back, and the loop returns
    its samples at the first empty read. The converter then writes nothing
    when there are no samples, and otherwise projects every sample onto
    the twenty channels of its fixed channel table. */
module Benji2Motec {
  import opened Common
  import opened Bytes
  import opened Text
  import opened Devices
  import Registry
  import opened Frames
  import opened Benji2
  import opened Writers
  import EarlierLogger

  const Rev: Revision :=
    Revision(2, false, KeepNul, TwoBytes, Inline(Big, Registry.Benji2Motec), 2, PeekBack(4), false, CompleteFrames)

  /** One entry of the channel table: the sample position it takes its
      value from, and the name, short name and unit the MoTeC log shows. */
  datatype Channel = Channel(index: nat, display: string, short: string, units: string)

  /** The channel table, in the logger's column order. */
  const AllChannels: seq<Channel> := [
    Channel(0, "Time", "Time", "s"),
    Channel(1, "Front Brake Pressure", "F_BrkPrs", "kPa"),
    Channel(2, "Rear Brake Pressure", "R_BrkPrs", "kPa"),
    Channel(3, "Steering", "Steering", "deg"),
    Channel(4, "FL Shock", "FL_Shock", "mm"),
    Channel(5, "FR Shock", "FR_Shock", "mm"),
    Channel(6, "RR Shock", "RR_Shock", "mm"),
    Channel(7, "RL Shock", "RL_Shock", "mm"),
    Channel(8, "Current", "Current", "A"),
    Channel(9, "Battery Voltage", "Battery", "V"),
    Channel(10, "IMU X Accel", "IMU_X", "g"),
    Channel(11, "IMU Y Accel", "IMU_Y", "g"),
    Channel(12, "IMU Z Accel", "IMU_Z", "g"),
    Channel(13, "IMU X Gyro", "Gyro_X", "deg/s"),
    Channel(14, "IMU Y Gyro", "Gyro_Y", "deg/s"),
    Channel(15, "IMU Z Gyro", "Gyro_Z", "deg/s"),
    Channel(16, "FR Strain Gauge", "FR_SG", "raw"),
    Channel(17, "FL Strain Gauge", "FL_SG", "raw"),
    Channel(18, "RL Strain Gauge", "RL_SG", "raw"),
    Channel(19, "RR Strain Gauge", "RR_SG", "raw")
  ]

  /** The table takes sample position i for its i-th channel: the MoTeC
      channels are the first twenty positions, in order. */
  lemma TableIsPrefix()
    ensures |AllChannels| == 20
    ensures forall i :: 0 <= i < |AllChannels| ==> AllChannels[i].index == i
  {
  }

  /** A sample too short for the table: indexing it raises IndexError. */
  predicate TooShort(samples: seq<seq<real>>)
  {
    exists j :: 0 <= j < |samples| && |samples[j]| < |AllChannels|
  }

  /** What convert_benj2_to_motec hands the MoTeC log: nothing when there
      are no samples; IndexError when a sample is shorter than the table;
      otherwise each sample's values at the table's positions. */
  function Project(samples: seq<seq<real>>): (r: Result<Option<seq<seq<real>>>>)
    ensures r == Success(None) <==> |samples| == 0
    ensures r == Failure(IndexError) <==> |samples| > 0 && TooShort(samples)
    ensures r.Failure? ==> r.error == IndexError
    ensures r.Success? && r.value.Some? ==>
      |r.value.value| == |samples| && forall j, i :: 0 <= j < |samples| && 0 <= i < |AllChannels| ==>
        |r.value.value[j]| == |AllChannels| && AllChannels[i].index < |samples[j]| &&
        r.value.value[j][i] == samples[j][AllChannels[i].index]
  {
    if |samples| == 0 then Success(None)
    else if TooShort(samples) then Failure(IndexError)
    else Success(Some(seq(|samples|, j requires 0 <= j < |samples| => samples[j][..20])))
  }

  /** What parse_benj2_to_samples returns for one file: the decoded
      samples, one value per channel and no counter. It never skips a file
      and always returns; it raises ValueError exactly when the length
      prefix is 0, and otherwise only for the header's UTF-8 decode or the
      seek. */
  function Parsed(file: seq<byte>, utf8: Utf8): (r: Parse<(seq<seq<real>>, seq<Device>)>)
    ensures !r.Skipped? && !r.Hangs?
    ensures r == Raised(ValueError) <==> LittleEndian(file[..Min(4, |file|)]) < 1
    ensures r.Raised? ==> r.error == ValueError || r.error == UnicodeDecodeError || r.error == InvalidSeek
    ensures r.Written? ==> |r.value.1| >= 1 && forall j :: 0 <= j < |r.value.0| ==> |r.value.0[j]| == |r.value.1|
  {
    EarlierLogger.Outcome(Rev, file, utf8);
    RunReturns(Rev, file, utf8);
    RunSamples(Rev, file, utf8)
  }

  /** What convert_benj2_to_motec does with one file: the parser's
      exceptions, then the projection's outcome. */
  function Convert(file: seq<byte>, utf8: Utf8): (r: Parse<Option<seq<seq<real>>>>)
    ensures !r.Skipped? && !r.Hangs?
    ensures r == Raised(IndexError) <==>
      Parsed(file, utf8).Written? && |Parsed(file, utf8).value.0| > 0 && |Parsed(file, utf8).value.1| < |AllChannels|
    ensures r.Raised? && r.error != IndexError ==> Parsed(file, utf8) == Raised(r.error)
    ensures r == Written(None) <==> Parsed(file, utf8).Written? && Parsed(file, utf8).value.0 == []
  {
    match Parsed(file, utf8)
    case Skipped => Skipped
    case Hangs => Hangs
    case Raised(e) => Raised(e)
    case Written((ss, ds)) =>
      ShortIffFewChannels(ss, |ds|);
      match Project(ss)
      case Failure(e) => Raised(e)
      case Success(o) => Written(o)
  }

  /** When every sample holds n values, a nonempty list of samples is too
      short for the table exactly when n is below 20. */
  lemma ShortIffFewChannels(ss: seq<seq<real>>, n: nat)
    requires forall j :: 0 <= j < |ss| ==> |ss[j]| == n
    ensures |ss| > 0 ==> (TooShort(ss) <==> n < |AllChannels|)
  {
    if |ss| > 0 && n < |AllChannels| {
      assert |ss[0]| < |AllChannels|;
    }
  }

  /** Once the prefix is at least 1, UnicodeDecodeError exactly when the
      header does not decode; once it decodes, OSError exactly when the
      terminator bytes and the two peeked bytes end before byte 4. */
  lemma Outcome(file: seq<byte>, utf8: Utf8)
    ensures LittleEndian(file[..Min(4, |file|)]) >= 1 ==> (Announced(file, 2) >= -1 &&
      (Parsed(file, utf8) == Raised(UnicodeDecodeError) <==> HeaderText(file, 2, utf8).None?))
    ensures Announced(file, 2) >= -1 && HeaderText(file, 2, utf8).Some? ==>
      var a := Min(HeaderEnd(file, 2) + 2, |file|);
      (Parsed(file, utf8).Raised? <==> a + Min(2, |file| - a) < 4)
  {
    EarlierLogger.Outcome(Rev, file, utf8);
    if Announced(file, 2) >= -1 && HeaderText(file, 2, utf8).Some? {
      TwoByteChannels(HeaderText(file, 2, utf8).value);
    }
  }

  /** Every channel of this decoder is two bytes wide. */
  lemma TwoByteChannels(header: string)
    ensures var ds := ChannelsOf(header, Rev).1; |ds| >= 1 && ds[0].width == 2
  {
  }

  /** The parsed samples: the channels are the header's, and the samples
      are those of the CompleteOf lines of those channels, without the
      counter. */
  lemma Rows(file: seq<byte>, utf8: Utf8)
    ensures var r := Parsed(file, utf8);
      r.Written? ==> (Announced(file, 2) >= -1 && HeaderText(file, 2, utf8).Some? &&
        var ds := ChannelsOf(HeaderText(file, 2, utf8).value, Rev).1;
        r.value.1 == ds &&
        exists lines :: CompleteOf(Rev, file, ds, lines) && Whole(lines) && r.value.0 == Samples(lines))
  {
    var r := Parsed(file, utf8);
    if r.Written? {
      EarlierLogger.CompleteRows(Rev, file, utf8);
      RunOutcome(Rev, file, utf8);
      RunBody(Rev, file, utf8);
      var b := Run(Rev, file, utf8).value;
      var lines := Lines(b.front.devices, b.rows);
      assert lines == Csv(Rev, file, utf8).value.lines;
      assert r.value.0 == Samples(lines);
    }
  }
}
