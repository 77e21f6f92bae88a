/** SDM26/SDM26_benji2_to_csv.py: the SDM26 logger's CSV decoder. The
    prefix counts one terminator byte, logs whose prefix is at most 1 are
    skipped, the channels come from create_devices and configure_devices,
    one terminator byte is skipped, nothing is peeked, frames stop at
    CH_COUNT, and the eof-flag loop keeps complete frames only. */
module Sdm26Csv {
  import opened Common
  import opened Bytes
  import opened Streams
  import opened Text
  import opened Devices
  import opened Frames
  import opened Benji2
  import opened Writers

  const Rev: Revision := Revision(1, true, Standard, FromCounts, CreateAndConfigure, 1, NoPeek, true, CompleteFrames)

  /** The CSV the decoder writes for one file. It skips a log whose prefix
      is at most 1, and the only exception it raises is the UTF-8 decode of
      the header. */
  function Decode(file: seq<byte>, utf8: Utf8): (r: Parse<Table>)
    ensures r.Skipped? <==> LittleEndian(file[..Min(4, |file|)]) <= 1
    ensures r.Raised? <==> Announced(file, 1) >= 1 && HeaderText(file, 1, utf8).None?
    ensures r.Raised? ==> r.error == UnicodeDecodeError
  {
    PrefixBytes(file, 1);
    RunOutcome(Rev, file, utf8);
    Csv(Rev, file, utf8)
  }

  /** Once its header decodes, the decoder never returns exactly when the
      first resolved name is CH_COUNT: every frame then reads nothing. */
  lemma LoopsForever(file: seq<byte>, utf8: Utf8)
    ensures Announced(file, 1) >= 1 && HeaderText(file, 1, utf8).Some? ==>
      (Decode(file, utf8).Hangs? <==>
        ResolvedOf(HeaderText(file, 1, utf8).value, Standard).names[0] == ChCount)
  {
    if Announced(file, 1) >= 1 && HeaderText(file, 1, utf8).Some? {
      RunHangs(Rev, file, utf8);
    }
  }

  /** The loop starts right after the terminator byte: nothing is peeked. */
  lemma Start(file: seq<byte>, w: nat)
    requires Announced(file, 1) >= -1
    ensures LoopStart(Rev, file, w) == Min(HeaderEnd(file, 1) + 1, |file|)
  {
  }

  /** FileLines for this revision, in closed form. */
  lemma Closed(file: seq<byte>, ds: seq<Device>, lines: seq<Line>)
    requires Announced(file, 1) >= -1 && |ds| >= 1 && Indexed(ds) && Cut(ds, true) > 0
    requires 0 <= LoopStart(Rev, file, ds[0].width) <= |file| && FileLines(Rev, file, ds, lines)
    ensures WholeFrames(file, ds, true, Min(HeaderEnd(file, 1) + 1, |file|), lines)
  {
    Start(file, ds[0].width);
  }

  /** A written CSV: the header line joins the resolved names, and the lines
      are the complete frames from the byte after the terminator on,
      counted from 1. */
  lemma Rows(file: seq<byte>, utf8: Utf8)
    ensures var r := Decode(file, utf8);
      r.Written? ==> (Announced(file, 1) >= 1 && HeaderText(file, 1, utf8).Some? &&
        var header := HeaderText(file, 1, utf8).value;
        r.value.header == "," + Join(ResolvedOf(header, Standard).names, ',') &&
        WholeFrames(file, ChannelsOf(header, Rev).1, true, Min(HeaderEnd(file, 1) + 1, |file|), r.value.lines))
  {
    var r := Decode(file, utf8);
    if r.Written? {
      CsvRows(Rev, file, utf8);
      PrefixBytes(file, 1);
      var ds := ChannelsOf(HeaderText(file, 1, utf8).value, Rev).1;
      Closed(file, ds, r.value.lines);
    }
  }
}
