/** SDM26_benji2_to_csv.py at the repository root: the CSV decoder with its
    own little-endian device loop and calibration table. The prefix counts
    one terminator byte and nothing is skipped on a short prefix; after the
    terminator byte it reads the first channel's width and seeks back by the
    same width, frames stop at CH_COUNT, and the eof-flag loop keeps
    complete frames only. A second block then repeats the terminator read,
    the peek and the seek, and runs a `while data` loop that would call the
    missing csv.write. */
module RootCsv {
  import opened Common
  import opened Bytes
  import opened Streams
  import opened Text
  import opened Devices
  import Registry
  import opened Frames
  import opened Benji2
  import opened Writers

  const Rev: Revision :=
    Revision(1, false, Standard, FromCounts, Inline(Little, Registry.RootCsv), 1, PeekBackWidth, true, CompleteFrames)

  /** The second block, from where the first loop left the stream: read(1),
      read(w), seek(-w), then `while data`, whose body ends in csv.write, an
      attribute the csv module does not have. */
  function SecondPass(w: nat, e: Stream): (r: Result<seq<Line>>)
    ensures var a := Min(e.pos + 1, |e.data|); var d := Min(w, |e.data| - a);
      (r == Failure(InvalidSeek) <==> a + d < w) &&
      (r == Failure(AttributeError) <==> a + d >= w && d > 0) &&
      (r == Success([]) <==> a + d >= w && d == 0)
  {
    var (_, afterOne) := Read(e, 1);
    var (data, afterPeek) := Read(afterOne, w);
    match SeekBack(afterPeek, w)
    case Failure(err) => Failure(err)
    case Success(_) => if |data| == 0 then Success([]) else Failure(AttributeError)
  }

  /** The second block run on a written body, from where its first loop
      left the stream. */
  function Finish(b: Body): (r: Parse<Table>)
    requires |b.front.devices| >= 1 && Indexed(b.front.devices) && Numbered(b.rows, 0, |b.front.devices|)
    ensures !r.Skipped? && !r.Hangs?
  {
    var ds := b.front.devices;
    match SecondPass(ds[0].width, CompleteStop(ds, true, b.start))
    case Failure(e) => Raised(e)
    case Success(extra) => Written(Table("," + Join(b.front.names, ','), Lines(ds, b.rows) + extra))
  }

  /** The CSV the decoder writes for one file: the first block's table, then
      whatever the second block adds or raises. */
  function Decode(file: seq<byte>, utf8: Utf8): (r: Parse<Table>)
    ensures !r.Skipped?
  {
    RunOutcome(Rev, file, utf8);
    match Run(Rev, file, utf8)
    case Skipped => Skipped
    case Hangs => Hangs
    case Raised(e) => Raised(e)
    case Written(b) => Finish(b)
  }

  /** The first loop ends at the end of the file, and the file holds at
      least the first channel's width, so the second block's seek succeeds
      and its `while data` tests an empty read: it adds nothing. */
  lemma FinishInert(b: Body)
    requires |b.front.devices| >= 1 && Indexed(b.front.devices) && Numbered(b.rows, 0, |b.front.devices|)
    requires Positive(b.front.devices) && Cut(b.front.devices, true) > 0
    requires |b.start.data| >= b.front.devices[0].width
    ensures Finish(b) == Written(Table("," + Join(b.front.names, ','), Lines(b.front.devices, b.rows)))
  {
    var ds := b.front.devices;
    CompleteStopsAtEnd(ds, true, b.start);
    assert Lines(ds, b.rows) + [] == Lines(ds, b.rows);
  }

  /** A loop that starts where StartsAt says started no earlier than byte
      0, so the file holds the first channel's width. */
  lemma WidthFits(file: seq<byte>, w: nat, start: Stream, data: seq<byte>)
    requires Announced(file, 1) >= -1 && StartsAt(Rev, file, w, start, data)
    ensures |file| >= w
  {
  }

  /** The second block never writes and never raises: the decoder's output
      is the first block's. */
  lemma SecondBlockInert(file: seq<byte>, utf8: Utf8)
    ensures Decode(file, utf8) == Csv(Rev, file, utf8)
  {
    var run := Run(Rev, file, utf8);
    if run.Written? {
      RunOutcome(Rev, file, utf8);
      RunBody(Rev, file, utf8);
      RunRows(Rev, file, utf8);
      var b := run.value;
      WidthFits(file, b.front.devices[0].width, b.start, b.data);
      FinishInert(b);
    }
  }

  /** The peek reads the first channel's width and seeks back by it: when
      the file holds that many bytes past the terminator the loop starts
      right after it, and otherwise that many bytes before the end. */
  lemma Start(file: seq<byte>, w: nat)
    requires Announced(file, 1) >= -1
    ensures var a := Min(HeaderEnd(file, 1) + 1, |file|);
      LoopStart(Rev, file, w) == Min(a + w, |file|) - w &&
      (a + w <= |file| ==> LoopStart(Rev, file, w) == a)
    ensures SeekFails(Rev, file, w) <==> |file| < w
  {
  }

  /** Every prefix is a length the reader accepts: the decoder never skips
      and never raises ValueError. It raises UnicodeDecodeError exactly
      when the header does not decode, and otherwise OSError exactly when
      the file is shorter than the first channel's width. */
  lemma Outcome(file: seq<byte>, utf8: Utf8)
    ensures Announced(file, 1) >= -1
    ensures var r := Decode(file, utf8);
      !r.Skipped? &&
      (r == Raised(UnicodeDecodeError) <==> HeaderText(file, 1, utf8).None?) &&
      (HeaderText(file, 1, utf8).Some? ==>
        (r.Raised? <==> |file| < ChannelsOf(HeaderText(file, 1, utf8).value, Rev).1[0].width)) &&
      (r.Raised? ==> r.error == UnicodeDecodeError || r.error == InvalidSeek)
  {
    PrefixBytes(file, 1);
    SecondBlockInert(file, utf8);
    RunOutcome(Rev, file, utf8);
    if HeaderText(file, 1, utf8).Some? {
      RunSeek(Rev, file, utf8);
      Start(file, ChannelsOf(HeaderText(file, 1, utf8).value, Rev).1[0].width);
    }
  }

  /** Once the header decodes and the seek succeeds, the decoder never
      returns exactly when the first resolved name is CH_COUNT. */
  lemma LoopsForever(file: seq<byte>, utf8: Utf8)
    ensures Announced(file, 1) >= -1
    ensures HeaderText(file, 1, utf8).Some? ==>
      var c := ChannelsOf(HeaderText(file, 1, utf8).value, Rev);
      |c.1| >= 1 &&
      (Decode(file, utf8).Hangs? <==> |file| >= c.1[0].width && c.0[0] == ChCount)
  {
    PrefixBytes(file, 1);
    SecondBlockInert(file, utf8);
    if HeaderText(file, 1, utf8).Some? {
      RunHangs(Rev, file, utf8);
      Start(file, ChannelsOf(HeaderText(file, 1, utf8).value, Rev).1[0].width);
    }
  }

  /** A written CSV: the header line joins the resolved names, and the lines
      are the complete frames from where the peek's seek left the stream
      (Start says where), counted from 1. */
  lemma Rows(file: seq<byte>, utf8: Utf8)
    ensures var r := Decode(file, utf8);
      r.Written? ==> (Announced(file, 1) >= -1 && HeaderText(file, 1, utf8).Some? &&
        var header := HeaderText(file, 1, utf8).value;
        r.value.header == "," + Join(ResolvedOf(header, Standard).names, ',') &&
        CompleteOf(Rev, file, ChannelsOf(header, Rev).1, r.value.lines))
  {
    var r := Csv(Rev, file, utf8);
    SecondBlockInert(file, utf8);
    if r.Written? {
      CsvRows(Rev, file, utf8);
      FileComplete(Rev, file, ChannelsOf(HeaderText(file, 1, utf8).value, Rev).1, r.value.lines);
    }
  }
}
