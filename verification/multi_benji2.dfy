/** SDM26/process_multi_benji2.py: the earlier logger's CSV decoder as the
    batch converter carries it. The prefix counts two terminator bytes, the
    channels are big-endian with the file's own calibration table, frames
    stop at CH_COUNT, and the `while data` loop ends only after writing a
    row whose last read came back empty. Files are named data24_<n>.benji2
    and the batch driver recovers <n> from the file's stem. */
module MultiBenji2 {
  import opened Common
  import opened Bytes
  import opened Text
  import opened Devices
  import Registry
  import opened Frames
  import opened Benji2
  import opened Writers
  import EarlierLogger

  const Rev: Revision :=
    Revision(2, false, Standard, FromCounts, Inline(Big, Registry.Multi), 2, PeekBack(4), true, TrailingRow)

  /** The CSV the decoder writes for one file. It never skips a file; it
      raises ValueError exactly when the length prefix is 0 (a read size of
      -2), and otherwise only for the header's UTF-8 decode or the seek. */
  function Decode(file: seq<byte>, utf8: Utf8): (r: Parse<Table>)
    ensures !r.Skipped?
    ensures r == Raised(ValueError) <==> LittleEndian(file[..Min(4, |file|)]) < 1
    ensures r.Raised? ==> r.error == ValueError || r.error == UnicodeDecodeError || r.error == InvalidSeek
  {
    EarlierLogger.Outcome(Rev, file, utf8);
    Csv(Rev, file, utf8)
  }

  /** Once the prefix is at least 1, UnicodeDecodeError exactly when the
      header does not decode; once it decodes, OSError exactly when the
      terminator bytes and the peek end before byte 4. */
  lemma Outcome(file: seq<byte>, utf8: Utf8)
    ensures LittleEndian(file[..Min(4, |file|)]) >= 1 ==> (Announced(file, 2) >= -1 &&
      (Decode(file, utf8) == Raised(UnicodeDecodeError) <==> HeaderText(file, 2, utf8).None?))
    ensures Announced(file, 2) >= -1 && HeaderText(file, 2, utf8).Some? ==>
      var ds := ChannelsOf(HeaderText(file, 2, utf8).value, Rev).1;
      var a := Min(HeaderEnd(file, 2) + 2, |file|);
      |ds| >= 1 && (Decode(file, utf8).Raised? <==> a + Min(ds[0].width, |file| - a) < 4)
  {
    EarlierLogger.Outcome(Rev, file, utf8);
  }

  /** Once the header decodes and the seek succeeds, the decoder never
      returns exactly when the first resolved name is CH_COUNT and the peek
      read something. */
  lemma LoopsForever(file: seq<byte>, utf8: Utf8)
    ensures Announced(file, 2) >= -1 && HeaderText(file, 2, utf8).Some? ==>
      var c := ChannelsOf(HeaderText(file, 2, utf8).value, Rev);
      var a := Min(HeaderEnd(file, 2) + 2, |file|);
      |c.1| >= 1 &&
      var p := Min(c.1[0].width, |file| - a);
      (Decode(file, utf8).Hangs? <==> a + p >= 4 && c.0[0] == ChCount && p > 0)
  {
    EarlierLogger.TrailingHangs(Rev, file, utf8);
  }

  /** A written CSV: the header line is "," and the joined names, and the
      lines are TrailingOf the header's channels, counted from 1. */
  lemma Rows(file: seq<byte>, utf8: Utf8)
    ensures var r := Decode(file, utf8);
      r.Written? ==> (Announced(file, 2) >= -1 && HeaderText(file, 2, utf8).Some? &&
        var header := HeaderText(file, 2, utf8).value;
        r.value.header == "," + Join(ResolvedOf(header, Standard).names, ',') &&
        TrailingOf(Rev, file, ChannelsOf(header, Rev).1, r.value.lines))
  {
    EarlierLogger.TrailingRows(Rev, file, utf8);
  }

  /** When the frames and the peek read something, the last line of a
      written CSV is the extra frame: its last kept field was an empty read
      and holds the conversion of 0. */
  lemma LastRow(file: seq<byte>, utf8: Utf8)
    ensures var r := Decode(file, utf8);
      r.Written? ==> (Announced(file, 2) >= -1 && HeaderText(file, 2, utf8).Some? &&
        var ds := ChannelsOf(HeaderText(file, 2, utf8).value, Rev).1;
        |ds| >= 1 &&
        (Cut(ds, true) > 0 && GuardBytes(Rev, file, ds[0].width) > 0 ==>
          EndsWithEmptyRead(ds, true, r.value.lines)))
  {
    var r := Decode(file, utf8);
    Rows(file, utf8);
    if r.Written? {
      var ds := ChannelsOf(HeaderText(file, 2, utf8).value, Rev).1;
      if Cut(ds, true) > 0 && GuardBytes(Rev, file, ds[0].width) > 0 {
        TrailingOfLast(Rev, file, ds, r.value.lines);
      }
    }
  }

  /** name.split('_', 1): the text before the first separator and the text
      after it, or the whole name when it holds none. */
  function SplitOnce(s: string, sep: char): (parts: seq<string>)
    ensures sep !in s ==> parts == [s]
    ensures sep in s ==> |parts| == 2 && s == parts[0] + [sep] + parts[1] && sep !in parts[0]
  {
    if sep !in s then [s]
    else
      var i := IndexOf(s, sep);
      assert s == s[..i] + [sep] + s[i + 1..];
      [s[..i], s[i + 1..]]
  }

  /** _extract_number_from_filename on a file's stem: the text after the
      first '_' when the stem starts with "data24_", else the whole stem. */
  function ExtractNumber(stem: string): (n: string)
    ensures |stem| >= 7 && stem[..7] == "data24_" ==> stem == "data24_" + n
    ensures !(|stem| >= 7 && stem[..7] == "data24_") ==> n == stem
  {
    if |stem| >= 7 && stem[..7] == "data24_" then
      assert '_' in stem by { assert stem[6] == '_'; }
      var parts := SplitOnce(stem, '_');
      assert stem[|parts[0]|] == '_';
      assert |parts[0]| == 6;
      parts[1]
    else stem
  }

  /** The number ExtractNumber returns for a data24_ stem is everything
      after the prefix, separators included: the batch driver hands back
      the number a file was named with. */
  lemma NumberRoundTrip(n: string)
    ensures ExtractNumber("data24_" + n) == n
  {
    var stem := "data24_" + n;
    assert stem[..7] == "data24_";
    assert stem == "data24_" + ExtractNumber(stem);
    assert stem[7..] == n && stem[7..] == ExtractNumber(stem);
  }
}
