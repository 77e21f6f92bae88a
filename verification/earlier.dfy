/** The framing the earlier logger's decoders share (process_benji2.py,
    SDM26/process_multi_benji2.py, process_benji2_csv.py and
    process_benji2_motec.py): the length prefix counts two terminator
    bytes, nothing is skipped on a short prefix, two bytes follow the
    header, and the first channel's width is read and then 4 bytes are
    sought back. */
module EarlierLogger {
  import opened Common
  import opened Bytes
  import opened Text
  import opened Devices
  import opened Frames
  import opened Benji2
  import opened Writers

  /** A revision with the earlier logger's framing. */
  predicate Framing(rev: Revision)
  {
    rev.terminator == 2 && !rev.guard && rev.skip == 2 && rev.peek == PeekBack(4)
  }

  /** Where the peek leaves the stream: the terminator bytes end at a, the
      peek reads p bytes, and the loop starts 4 bytes before a + p; the
      seek fails when a + p is below 4, and the loop's guard is the peek. */
  lemma Start(rev: Revision, file: seq<byte>, w: nat)
    requires Framing(rev) && Announced(file, 2) >= -1
    ensures var a := Min(HeaderEnd(file, 2) + 2, |file|); var p := Min(w, |file| - a);
      LoopStart(rev, file, w) == a + p - 4 && GuardBytes(rev, file, w) == p &&
      (SeekFails(rev, file, w) <==> a + p < 4)
  {
  }

  /** How a run with this framing ends before its loop: never skipped;
      ValueError exactly when the little-endian prefix is below 1 (a
      negative read size other than -1); UnicodeDecodeError exactly when
      the header does not decode; and otherwise OSError exactly when the
      seek back passes byte 0. */
  lemma Outcome(rev: Revision, file: seq<byte>, utf8: Utf8)
    requires Framing(rev)
    ensures var r := Run(rev, file, utf8); var prefix := LittleEndian(file[..Min(4, |file|)]);
      !r.Skipped? &&
      (r == Raised(ValueError) <==> prefix < 1) &&
      (prefix >= 1 ==> (Announced(file, 2) >= -1 &&
        (r == Raised(UnicodeDecodeError) <==> HeaderText(file, 2, utf8).None?))) &&
      (r.Raised? ==> r.error == ValueError || r.error == UnicodeDecodeError || r.error == InvalidSeek)
    ensures var r := Run(rev, file, utf8);
      Announced(file, 2) >= -1 && HeaderText(file, 2, utf8).Some? ==>
        var ds := ChannelsOf(HeaderText(file, 2, utf8).value, rev).1;
        var a := Min(HeaderEnd(file, 2) + 2, |file|);
        |ds| >= 1 && (r.Raised? <==> a + Min(ds[0].width, |file| - a) < 4) &&
        (r.Raised? ==> r.error == InvalidSeek)
  {
    PrefixBytes(file, 2);
    RunOutcome(rev, file, utf8);
    if Announced(file, 2) >= -1 && HeaderText(file, 2, utf8).Some? {
      RunSeek(rev, file, utf8);
      Start(rev, file, ChannelsOf(HeaderText(file, 2, utf8).value, rev).1[0].width);
    }
  }

  /** With the trailing-row loop, once the header decodes and the seek
      succeeds, the run never returns exactly when the first resolved name
      is CH_COUNT and the peek read something. */
  lemma TrailingHangs(rev: Revision, file: seq<byte>, utf8: Utf8)
    requires Framing(rev) && rev.sentinel && rev.policy == TrailingRow
    ensures Announced(file, 2) >= -1 && HeaderText(file, 2, utf8).Some? ==>
      var c := ChannelsOf(HeaderText(file, 2, utf8).value, rev);
      var a := Min(HeaderEnd(file, 2) + 2, |file|);
      |c.1| >= 1 &&
      var p := Min(c.1[0].width, |file| - a);
      (Run(rev, file, utf8).Hangs? <==> a + p >= 4 && c.0[0] == ChCount && p > 0)
  {
    if Announced(file, 2) >= -1 && HeaderText(file, 2, utf8).Some? {
      RunHangs(rev, file, utf8);
      Start(rev, file, ChannelsOf(HeaderText(file, 2, utf8).value, rev).1[0].width);
    }
  }

  /** A written CSV of a trailing-row revision: the header line joins the
      resolved names, and the lines are TrailingOf the header's channels
      (Start gives where they start and what the guard read). */
  lemma TrailingRows(rev: Revision, file: seq<byte>, utf8: Utf8)
    requires Framing(rev) && rev.policy == TrailingRow
    ensures var r := Csv(rev, file, utf8);
      r.Written? ==> (Announced(file, 2) >= -1 && HeaderText(file, 2, utf8).Some? &&
        var header := HeaderText(file, 2, utf8).value;
        r.value.header == "," + Join(ResolvedOf(header, rev.resolver).names, ',') &&
        TrailingOf(rev, file, ChannelsOf(header, rev).1, r.value.lines))
  {
    var r := Csv(rev, file, utf8);
    if r.Written? {
      CsvRows(rev, file, utf8);
      var ds := ChannelsOf(HeaderText(file, 2, utf8).value, rev).1;
      FileTrailing(rev, file, ds, r.value.lines);
    }
  }

  /** The lines of a written run of a complete-frame revision: CompleteOf
      the header's channels (Start gives where they start). */
  lemma CompleteRows(rev: Revision, file: seq<byte>, utf8: Utf8)
    requires Framing(rev) && rev.policy == CompleteFrames
    ensures var r := Csv(rev, file, utf8);
      r.Written? ==> (Announced(file, 2) >= -1 && HeaderText(file, 2, utf8).Some? &&
        var header := HeaderText(file, 2, utf8).value;
        r.value.header == "," + Join(ResolvedOf(header, rev.resolver).names, ',') &&
        CompleteOf(rev, file, ChannelsOf(header, rev).1, r.value.lines))
  {
    var r := Csv(rev, file, utf8);
    if r.Written? {
      CsvRows(rev, file, utf8);
      var ds := ChannelsOf(HeaderText(file, 2, utf8).value, rev).1;
      FileComplete(rev, file, ds, r.value.lines);
    }
  }
}
