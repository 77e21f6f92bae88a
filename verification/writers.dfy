/** What the .benji2 decoders write once a run is done: the CSV decoders a
    header line and one counter-first line per row, the MoTeC decoders an
    in-memory list of complete samples. */
module Writers {
  import opened Common
  import opened Bytes
  import opened Streams
  import opened Text
  import opened Devices
  import opened Frames
  import opened Benji2

  /** A CSV as the counter-first decoders write it: "," and the joined
      names, then one line per row. */
  datatype Table = Table(header: string, lines: seq<Line>)

  /** The CSV of a run: the header line from the resolved names and the
      lines of its rows; every other outcome passes through. */
  function Csv(rev: Revision, file: seq<byte>, utf8: Utf8): (r: Parse<Table>)
    ensures var run := Run(rev, file, utf8);
      r.Skipped? == run.Skipped? && r.Hangs? == run.Hangs? && r.Raised? == run.Raised? &&
      (r.Raised? ==> r.error == run.error) &&
      (r.Written? ==> (run.Written? && r.value.header == "," + Join(run.value.front.names, ',') &&
        r.value.lines == Lines(run.value.front.devices, run.value.rows)))
  {
    match Run(rev, file, utf8)
    case Skipped => Skipped
    case Hangs => Hangs
    case Raised(e) => Raised(e)
    case Written(b) => Written(Table("," + Join(b.front.names, ','), Lines(b.front.devices, b.rows)))
  }

  /** The lines a revision writes for a file with channels ds: none when
      the frames read nothing; otherwise the expected number of lines, line
      j the frame j frame widths past where the loop starts, counted from 1. */
  predicate FileLines(rev: Revision, file: seq<byte>, ds: seq<Device>, lines: seq<Line>)
    requires Announced(file, rev.terminator) >= -1 && |ds| >= 1 && Indexed(ds)
    requires 0 <= LoopStart(rev, file, ds[0].width) <= |file|
  {
    var k := Cut(ds, rev.sentinel);
    var start := LoopStart(rev, file, ds[0].width);
    (k == 0 ==> lines == []) &&
    (k > 0 ==> (Span(ds, k - 1) < Span(ds, k) &&
      |lines| == RowsExpected(rev.policy, |file| - start, GuardBytes(rev, file, ds[0].width),
                              Span(ds, k), Span(ds, k - 1)) &&
      FramesFrom(ds, rev.sentinel, Cursor(file, start), lines)))
  }

  /** The lines of a loop that keeps complete frames only, started at byte
      start of the file: one per frame whose last field starts before the
      end of the file, line j the frame j frame widths on, counted from 1. */
  predicate WholeFrames(file: seq<byte>, ds: seq<Device>, sentinel: bool, start: nat, lines: seq<Line>)
    requires Indexed(ds) && start <= |file|
  {
    var k := Cut(ds, sentinel);
    0 < k && Span(ds, k - 1) < Span(ds, k) &&
    |lines| == RowCount(|file| - start, Span(ds, k), Span(ds, k - 1)) &&
    FramesFrom(ds, sentinel, Cursor(file, start), lines)
  }

  /** The lines of a trailing-row loop started at byte start of the file,
      whose guard read `guard` bytes: none when the guard read nothing or
      the frames read nothing; otherwise one per frame whose last field
      starts before the end of the file and one more, line j the frame j
      frame widths on, counted from 1. */
  predicate TrailingFrames(file: seq<byte>, ds: seq<Device>, sentinel: bool, start: nat, guard: nat, lines: seq<Line>)
    requires Indexed(ds) && start <= |file|
  {
    var k := Cut(ds, sentinel);
    (k == 0 || guard == 0 ==> lines == []) &&
    (k > 0 ==> (Span(ds, k - 1) < Span(ds, k) &&
      |lines| == (if guard == 0 then 0 else RowCount(|file| - start, Span(ds, k), Span(ds, k - 1)) + 1) &&
      FramesFrom(ds, sentinel, Cursor(file, start), lines)))
  }

  /** The lines of a complete-frame loop behind a `while data` guard that
      read `guard` bytes: none when it read nothing, else WholeFrames. */
  predicate GuardedFrames(file: seq<byte>, ds: seq<Device>, sentinel: bool, start: nat, guard: nat, lines: seq<Line>)
    requires Indexed(ds) && start <= |file|
  {
    (guard == 0 ==> lines == []) && (guard > 0 ==> WholeFrames(file, ds, sentinel, start, lines))
  }

  /** The extra row of a trailing-row loop is the frame whose last field
      starts at or past the end of the file: that field is an empty read,
      decoded as the conversion of 0. */
  lemma TrailingLast(file: seq<byte>, ds: seq<Device>, sentinel: bool, start: nat, guard: nat, lines: seq<Line>)
    requires Indexed(ds) && start <= |file| && TrailingFrames(file, ds, sentinel, start, guard, lines)
    requires Cut(ds, sentinel) > 0 && guard > 0
    ensures var k := Cut(ds, sentinel);
      |lines| >= 1 && lines[|lines| - 1].index == |lines| &&
      lines[|lines| - 1].values[k - 1] == Some(Apply(ds[k - 1].conversion, 0))
  {
    LastFrame(ds, sentinel, Cursor(file, start), lines);
  }

  /** When the last line's frame starts its last kept field at or past the
      end of the data, that field decodes as the conversion of 0. */
  lemma LastFrame(ds: seq<Device>, sentinel: bool, s: Stream, lines: seq<Line>)
    requires Indexed(ds) && Cut(ds, sentinel) > 0 && FramesFrom(ds, sentinel, s, lines) && |lines| >= 1
    requires var k := Cut(ds, sentinel);
      Span(ds, k - 1) < Span(ds, k) && |lines| == RowCount(|s.data| - s.pos, Span(ds, k), Span(ds, k - 1)) + 1
    ensures var k := Cut(ds, sentinel);
      lines[|lines| - 1].index == |lines| &&
      lines[|lines| - 1].values[k - 1] == Some(Apply(ds[k - 1].conversion, 0))
  {
    var k := Cut(ds, sentinel);
    var n := |lines| - 1;
    LineOf(ds, sentinel, s, lines, n);
    LastFrameValue(ds, k, s, n);
  }

  /** Frame RowCount of the remaining bytes, the one after the last kept
      frame, reads its last field past the end of the data. */
  lemma LastFrameValue(ds: seq<Device>, k: nat, s: Stream, n: nat)
    requires 0 < k <= |ds| && Span(ds, k - 1) < Span(ds, k)
    requires n == RowCount(|s.data| - s.pos, Span(ds, k), Span(ds, k - 1))
    ensures Values(ds, FrameAt(ds, k, s, Offset(n, Span(ds, k))))[k - 1] == Some(Apply(ds[k - 1].conversion, 0))
  {
    RowCountBounds(|s.data| - s.pos, Span(ds, k), Span(ds, k - 1));
    PastEndDecodesZero(ds, k, s, Offset(n, Span(ds, k)), k - 1);
  }

  /** The last line is numbered |lines| and holds, for the last field
      before the cut, the conversion of 0: that field was an empty read. */
  predicate EndsWithEmptyRead(ds: seq<Device>, sentinel: bool, lines: seq<Line>)
  {
    var k := Cut(ds, sentinel);
    |lines| >= 1 && lines[|lines| - 1].index == |lines| && 0 < k <= |lines[|lines| - 1].values| &&
    lines[|lines| - 1].values[k - 1] == Some(Apply(ds[k - 1].conversion, 0))
  }

  /** The lines of a trailing-row revision whose frames and guard read
      something end with the extra frame. */
  lemma TrailingOfLast(rev: Revision, file: seq<byte>, ds: seq<Device>, lines: seq<Line>)
    requires Announced(file, rev.terminator) >= -1 && TrailingOf(rev, file, ds, lines)
    requires Cut(ds, rev.sentinel) > 0 && GuardBytes(rev, file, ds[0].width) > 0
    ensures EndsWithEmptyRead(ds, rev.sentinel, lines)
  {
    var start := LoopStart(rev, file, ds[0].width);
    TrailingLast(file, ds, rev.sentinel, start, GuardBytes(rev, file, ds[0].width), lines);
    LineOf(ds, rev.sentinel, Cursor(file, start), lines, |lines| - 1);
  }

  /** Line j of FramesFrom. */
  lemma LineOf(ds: seq<Device>, sentinel: bool, s: Stream, lines: seq<Line>, j: nat)
    requires Indexed(ds) && FramesFrom(ds, sentinel, s, lines) && j < |lines|
    ensures var k := Cut(ds, sentinel);
      lines[j] == Line(j + 1, Values(ds, FrameAt(ds, k, s, Offset(j, Span(ds, k)))))
  {
  }

  /** The rows of a body that starts where StartsAt says, in terms of the
      file. */
  lemma BodyLines(rev: Revision, file: seq<byte>, b: Body)
    requires Announced(file, rev.terminator) >= -1
    requires |b.front.devices| >= 1 && Indexed(b.front.devices) && Numbered(b.rows, 0, |b.front.devices|)
    requires RowsClosed(rev, b) && StartsAt(rev, file, b.front.devices[0].width, b.start, b.data)
    ensures 0 <= LoopStart(rev, file, b.front.devices[0].width) <= |file|
    ensures FileLines(rev, file, b.front.devices, Lines(b.front.devices, b.rows))
  {
  }

  /** The lines of a trailing-row revision: TrailingFrames from where the
      revision's loop starts, with its guard bytes. */
  predicate TrailingOf(rev: Revision, file: seq<byte>, ds: seq<Device>, lines: seq<Line>)
    requires Announced(file, rev.terminator) >= -1
  {
    |ds| >= 1 && Indexed(ds) && 0 <= LoopStart(rev, file, ds[0].width) <= |file| &&
    TrailingFrames(file, ds, rev.sentinel, LoopStart(rev, file, ds[0].width), GuardBytes(rev, file, ds[0].width), lines)
  }

  /** The lines of a complete-frame revision: WholeFrames from where the
      revision's loop starts. */
  predicate CompleteOf(rev: Revision, file: seq<byte>, ds: seq<Device>, lines: seq<Line>)
    requires Announced(file, rev.terminator) >= -1
  {
    |ds| >= 1 && Indexed(ds) && 0 <= LoopStart(rev, file, ds[0].width) <= |file| &&
    WholeFrames(file, ds, rev.sentinel, LoopStart(rev, file, ds[0].width), lines)
  }

  /** The lines of a `while data` revision: GuardedFrames from where the
      revision's loop starts, with its guard bytes. */
  predicate WhileDataOf(rev: Revision, file: seq<byte>, ds: seq<Device>, lines: seq<Line>)
    requires Announced(file, rev.terminator) >= -1
  {
    |ds| >= 1 && Indexed(ds) && 0 <= LoopStart(rev, file, ds[0].width) <= |file| &&
    GuardedFrames(file, ds, rev.sentinel, LoopStart(rev, file, ds[0].width), GuardBytes(rev, file, ds[0].width), lines)
  }

  /** FileLines of a `while data` revision whose frames read something as
      WhileDataOf. */
  lemma FileWhileData(rev: Revision, file: seq<byte>, ds: seq<Device>, lines: seq<Line>)
    requires rev.policy == CompleteWhileData && Announced(file, rev.terminator) >= -1 && |ds| >= 1 && Indexed(ds)
    requires Cut(ds, rev.sentinel) > 0
    requires 0 <= LoopStart(rev, file, ds[0].width) <= |file| && FileLines(rev, file, ds, lines)
    ensures WhileDataOf(rev, file, ds, lines)
  {
  }

  /** FileLines of a trailing-row revision as TrailingOf. */
  lemma FileTrailing(rev: Revision, file: seq<byte>, ds: seq<Device>, lines: seq<Line>)
    requires rev.policy == TrailingRow && Announced(file, rev.terminator) >= -1 && |ds| >= 1 && Indexed(ds)
    requires 0 <= LoopStart(rev, file, ds[0].width) <= |file| && FileLines(rev, file, ds, lines)
    ensures TrailingOf(rev, file, ds, lines)
  {
  }

  /** FileLines of a complete-frame revision as CompleteOf. */
  lemma FileComplete(rev: Revision, file: seq<byte>, ds: seq<Device>, lines: seq<Line>)
    requires rev.policy == CompleteFrames && Announced(file, rev.terminator) >= -1 && |ds| >= 1 && Indexed(ds)
    requires Cut(ds, rev.sentinel) > 0
    requires 0 <= LoopStart(rev, file, ds[0].width) <= |file| && FileLines(rev, file, ds, lines)
    ensures CompleteOf(rev, file, ds, lines)
  {
  }

  /** A written CSV in terms of the file: the header line joins the
      resolved names, and the lines are FileLines of the header's channels. */
  lemma CsvRows(rev: Revision, file: seq<byte>, utf8: Utf8)
    ensures var r := Csv(rev, file, utf8);
      r.Written? ==> (Announced(file, rev.terminator) >= -1 && HeaderText(file, rev.terminator, utf8).Some? &&
        var c := ChannelsOf(HeaderText(file, rev.terminator, utf8).value, rev);
        |c.1| >= 1 && Indexed(c.1) && 0 <= LoopStart(rev, file, c.1[0].width) <= |file| &&
        r.value.header == "," + Join(c.0, ',') && FileLines(rev, file, c.1, r.value.lines) &&
        (rev.policy.CompleteFrames? ==> Cut(c.1, rev.sentinel) > 0))
  {
    var run := Run(rev, file, utf8);
    if run.Written? {
      RunOutcome(rev, file, utf8);
      RunBody(rev, file, utf8);
      RunRows(rev, file, utf8);
      BodyLines(rev, file, run.value);
    }
  }

  /** Every value of every line is present: no field was left out by a
      CH_COUNT marker. */
  predicate Whole(lines: seq<Line>)
  {
    forall j, i :: 0 <= j < |lines| && 0 <= i < |lines[j].values| ==> lines[j].values[i].Some?
  }

  /** The MoTeC decoders keep the values of each row and no counter. */
  function Samples(lines: seq<Line>): (ss: seq<seq<real>>)
    requires Whole(lines)
    ensures |ss| == |lines|
    ensures forall j :: 0 <= j < |lines| ==> |ss[j]| == |lines[j].values|
    ensures forall j, i :: 0 <= j < |lines| && 0 <= i < |lines[j].values| ==>
      Some(ss[j][i]) == lines[j].values[i]
  {
    seq(|lines|, j requires 0 <= j < |lines| =>
      seq(|lines[j].values|, i requires 0 <= i < |lines[j].values| => lines[j].values[i].value))
  }

  /** Without the sentinel every row of a run is complete: each of its
      values is a decoded field. */
  lemma WholeRows(rev: Revision, b: Body)
    requires !rev.sentinel && |b.front.devices| >= 1 && Indexed(b.front.devices)
    requires Numbered(b.rows, 0, |b.front.devices|) && RowsClosed(rev, b)
    ensures Whole(Lines(b.front.devices, b.rows))
  {
    var ds := b.front.devices;
    var lines := Lines(ds, b.rows);
    CutAll(ds);
    forall j, i | 0 <= j < |lines| && 0 <= i < |lines[j].values|
      ensures lines[j].values[i].Some?
    {
      var frame := FrameAt(ds, |ds|, b.start, Offset(j, Span(ds, |ds|)));
      assert lines[j] == Line(j + 1, Values(ds, frame));
      assert frame[i].Some?;
    }
  }

  /** A written run of a revision without the sentinel, as samples. */
  function RunSamples(rev: Revision, file: seq<byte>, utf8: Utf8): (r: Parse<(seq<seq<real>>, seq<Device>)>)
    requires !rev.sentinel
    ensures var run := Run(rev, file, utf8);
      r.Skipped? == run.Skipped? && r.Hangs? == run.Hangs? && r.Raised? == run.Raised? &&
      (r.Raised? ==> r.error == run.error) &&
      (r.Written? ==> (run.Written? && r.value.1 == run.value.front.devices &&
        var lines := Lines(run.value.front.devices, run.value.rows);
        Whole(lines) && r.value.0 == Samples(lines)))
    ensures r.Written? ==> |r.value.1| >= 1 && forall j :: 0 <= j < |r.value.0| ==> |r.value.0[j]| == |r.value.1|
  {
    match Run(rev, file, utf8)
    case Skipped => Skipped
    case Hangs => Hangs
    case Raised(e) => Raised(e)
    case Written(b) =>
      RunRows(rev, file, utf8);
      WholeRows(rev, b);
      Written((Samples(Lines(b.front.devices, b.rows)), b.front.devices))
  }
}
