/** process_benji2_csv.py: the earlier logger's CSV decoder with csv.writer
    output. The prefix counts two terminator bytes, the channels are
    big-endian with this file's calibration table, there is no CH_COUNT
    stop, and the for/else loop writes a row only when every field read
    returned bytes. The header row is "Index" and the names; the decoder
    returns how many data rows it wrote. */
module Benji2Csv {
  import opened Common
  import opened Bytes
  import opened Text
  import opened Devices
  import Registry
  import opened Frames
  import opened Benji2
  import opened Writers
  import EarlierLogger

  const Rev: Revision :=
    Revision(2, false, Standard, FromCounts, Inline(Big, Registry.Benji2Csv), 2, PeekBack(4), false, CompleteFrames)

  /** What the decoder leaves behind: the header row, the data rows, and
      the row count it returns. */
  datatype Sheet = Sheet(columns: seq<string>, lines: seq<Line>, count: nat)

  /** The sheet the decoder writes for one file. It never skips a file and
      always returns; it raises ValueError exactly when the length prefix is
      0, and otherwise only for the header's UTF-8 decode or the seek. The
      count it returns is the number of data rows. */
  function Decode(file: seq<byte>, utf8: Utf8): (r: Parse<Sheet>)
    ensures !r.Skipped? && !r.Hangs?
    ensures r == Raised(ValueError) <==> LittleEndian(file[..Min(4, |file|)]) < 1
    ensures r.Raised? ==> r.error == ValueError || r.error == UnicodeDecodeError || r.error == InvalidSeek
    ensures r.Written? ==> r.value.count == |r.value.lines| && |r.value.columns| >= 2 && r.value.columns[0] == "Index"
  {
    EarlierLogger.Outcome(Rev, file, utf8);
    RunReturns(Rev, file, utf8);
    match Run(Rev, file, utf8)
    case Skipped => Skipped
    case Hangs => Hangs
    case Raised(e) => Raised(e)
    case Written(b) => Written(SheetOf(b))
  }

  /** The header row, the data rows and the count of a written body. */
  function SheetOf(b: Body): (s: Sheet)
    requires forall j :: 0 <= j < |b.rows| ==> |b.rows[j].slots| == |b.front.devices|
    ensures s.count == |s.lines| && |s.columns| >= 1 && s.columns[0] == "Index"
  {
    Sheet(["Index"] + b.front.names, Lines(b.front.devices, b.rows), |b.rows|)
  }

  /** A written sheet: the header row is "Index" and the resolved names,
      and the data rows are CompleteOf the header's channels, numbered 1 to
      count, one value per channel. */
  lemma Rows(file: seq<byte>, utf8: Utf8)
    ensures var r := Decode(file, utf8);
      r.Written? ==> (Announced(file, 2) >= -1 && HeaderText(file, 2, utf8).Some? &&
        var header := HeaderText(file, 2, utf8).value;
        r.value.columns == ["Index"] + ResolvedOf(header, Standard).names &&
        CompleteOf(Rev, file, ChannelsOf(header, Rev).1, r.value.lines))
  {
    EarlierLogger.CompleteRows(Rev, file, utf8);
    var r := Decode(file, utf8);
    if r.Written? {
      RunOutcome(Rev, file, utf8);
      RunBody(Rev, file, utf8);
      assert r.value.lines == Csv(Rev, file, utf8).value.lines;
    }
  }

  /** Every data row holds one decoded value per column after "Index":
      without the CH_COUNT stop no field is left empty. */
  lemma Complete(file: seq<byte>, utf8: Utf8)
    ensures var r := Decode(file, utf8);
      r.Written? ==> Whole(r.value.lines) && forall j :: 0 <= j < |r.value.lines| ==>
        |r.value.lines[j].values| == |r.value.columns| - 1 && r.value.lines[j].index == j + 1
  {
    var run := Run(Rev, file, utf8);
    if run.Written? {
      RunNames(Rev, file, utf8);
      RunRows(Rev, file, utf8);
      BodyComplete(run.value);
      assert Decode(file, utf8) == Written(SheetOf(run.value));
    }
  }

  /** The sheet of a written body, in terms of the body. */
  lemma BodyComplete(b: Body)
    requires |b.front.devices| >= 1 && Indexed(b.front.devices) && Numbered(b.rows, 0, |b.front.devices|)
    requires RowsClosed(Rev, b) && |b.front.names| == |b.front.devices|
    ensures var s := SheetOf(b);
      Whole(s.lines) && forall j :: 0 <= j < |s.lines| ==>
        |s.lines[j].values| == |s.columns| - 1 && s.lines[j].index == j + 1
  {
    WholeRows(Rev, b);
  }
}
