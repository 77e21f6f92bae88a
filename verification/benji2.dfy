/** One .benji2 decoder, parameterised by the choices on which the
    revisions differ. Every revision reads a 4-byte little-endian header
    length, the header text, resolves it into channels, skips the
    terminator bytes, optionally peeks at the first timestamp and seeks
    back, and then runs one of the frame loops of the Frames module. */
module Benji2 {
  import opened Common
  import opened Bytes
  import opened Streams
  import opened Text
  import opened Header
  import opened Devices
  import Registry
  import opened Frames

  /** bytes.decode("utf-8"): None when the bytes are not valid UTF-8. The
      codec is not part of this model, so the decoders take it as a
      parameter. */
  type Utf8 = seq<byte> -> Option<string>

  /** How a decoder run on one file ends: with its output, by skipping the
      file, by never returning, or with an exception. */
  datatype Parse<+T> = Written(value: T) | Skipped | Hangs | Raised(error: Failure)

  /** How a revision builds its channel list from the resolved names:
      create_devices then configure_devices from SDM26/devices.py, or the
      revision's own device_data loop and match statement. */
  datatype Build =
    | CreateAndConfigure
    | Inline(order: ByteOrder, registry: Rules)

  /** Which copy of filter_duplicate_headers a revision carries: the one
      that strips NULs and joins the names, or the one that keeps NULs and
      returns the list. */
  datatype Resolver = Standard | KeepNul

  /** Channel widths: the header's occurrence counts, or 2 bytes each. */
  datatype Sizing = FromCounts | TwoBytes

  /** What follows the terminator skip: nothing, or a read of the first
      channel's width followed by a seek back, by a fixed amount or by that
      width. */
  datatype Peek = NoPeek | PeekBack(back: nat) | PeekBackWidth

  /** Which frame loop a revision runs: the complete-frame loop, the same
      loop guarded by `while data` on the header bytes, or the trailing-row
      loop guarded by `while data` on the peeked bytes. */
  datatype Policy = CompleteFrames | CompleteWhileData | TrailingRow

  /** Everything on which the .benji2 decoders differ: the terminator count
      taken off the length prefix, the empty-file guard, the resolver copy,
      the widths, the channel build, the bytes skipped after the header, the
      timestamp peek, whether frames stop at CH_COUNT, and the loop. */
  datatype Revision = Revision(
    terminator: nat,
    guard: bool,
    resolver: Resolver,
    sizing: Sizing,
    build: Build,
    skip: nat,
    peek: Peek,
    sentinel: bool,
    policy: Policy)

  /** The byte order a build gives every channel. */
  function OrderOf(build: Build): ByteOrder
  {
    match build
    case CreateAndConfigure => Little
    case Inline(order, _) => order
  }

  /** The registry a build applies. */
  function RegistryOf(build: Build): Rules
  {
    match build
    case CreateAndConfigure => Registry.Sdm26
    case Inline(_, registry) => registry
  }

  /** The width a channel with `count` header tokens gets. */
  function Width(sizing: Sizing, count: nat): nat
  {
    match sizing
    case FromCounts => count
    case TwoBytes => 2
  }

  /** The width list for a count list. */
  function Widths(sizing: Sizing, counts: seq<nat>): (ws: seq<nat>)
    ensures |ws| == |counts|
    ensures forall i :: 0 <= i < |counts| ==> ws[i] == Width(sizing, counts[i])
  {
    seq(|counts|, i requires 0 <= i < |counts| => Width(sizing, counts[i]))
  }

  /** The channel list: one device per name, sized by the matching width. */
  function Channels(build: Build, names: seq<string>, sizes: seq<nat>): (r: Result<seq<Device>>)
    requires forall i :: 0 <= i < |names| ==> Trimmed(names[i], IsSpace)
    ensures r.Failure? <==> |sizes| < |names|
    ensures r.Success? ==> |r.value| == |names| && Indexed(r.value)
    ensures r.Success? ==> forall i :: 0 <= i < |names| ==>
      r.value[i] == Configure(NewDevice(names[i], i, sizes[i], OrderOf(build)), RegistryOf(build))
  {
    match build
    case CreateAndConfigure =>
      var created := CreateDevices(names, sizes);
      if created.Failure? then Failure(created.error)
      else
        assert forall i :: 0 <= i < |names| ==> Trim(names[i], IsSpace) == names[i] by {
          forall i | 0 <= i < |names| {
            TrimOfTrimmed(names[i], IsSpace);
          }
        }
        Success(ConfigureAll(created.value, Registry.Sdm26))
    case Inline(order, registry) =>
      var made := MakeDevices(names, sizes, order);
      if made.Failure? then Failure(made.error)
      else Success(ConfigureAll(made.value, registry))
  }

  /** headerLen: the little-endian length prefix minus the terminator bytes
      it counts (1 for the SDM26 logger, 2 for the earlier one). */
  function HeaderLength(prefix: seq<byte>, terminator: nat): int
  {
    LittleEndian(prefix) - terminator
  }

  /** The resolved names and counts of a header under a revision's copy of
      the resolver. */
  function ResolvedOf(header: string, resolver: Resolver): Resolved
  {
    Resolve(Bases(header, resolver.KeepNul?))
  }

  /** Devices built from parallel name and count lists under a revision:
      one per name, at its own column, with the revision's width, byte order
      and calibration. */
  predicate Builds(devices: seq<Device>, names: seq<string>, counts: seq<nat>, rev: Revision)
  {
    |devices| == |names| == |counts| && |devices| >= 1 && Indexed(devices) && Positive(devices) &&
    forall i :: 0 <= i < |devices| ==>
      devices[i] == Configure(NewDevice(names[i], i, Width(rev.sizing, counts[i]), OrderOf(rev.build)),
                              RegistryOf(rev.build))
  }

  /** The devices a header text gives under a revision. */
  predicate Describes(devices: seq<Device>, header: string, rev: Revision)
  {
    var res := ResolvedOf(header, rev.resolver);
    Builds(devices, res.names, res.counts, rev)
  }

  /** Building from stripped names with positive counts always succeeds. */
  lemma ChannelsBuild(rev: Revision, names: seq<string>, counts: seq<nat>)
    requires |names| == |counts| >= 1
    requires forall i :: 0 <= i < |names| ==> Trimmed(names[i], IsSpace)
    requires forall i :: 0 <= i < |counts| ==> counts[i] >= 1
    ensures var r := Channels(rev.build, names, Widths(rev.sizing, counts));
      r.Success? && Builds(r.value, names, counts, rev)
  {
  }

  /** Resolving stripped names gives stripped names. */
  lemma NamesTrimmed(bases: seq<string>)
    requires forall i :: 0 <= i < |bases| ==> Trimmed(bases[i], IsSpace)
    ensures var names := Resolve(bases).names;
      forall i :: 0 <= i < |names| ==> Trimmed(names[i], IsSpace)
  {
    var names := Resolve(bases).names;
    forall i | 0 <= i < |names|
      ensures Trimmed(names[i], IsSpace)
    {
      var k :| 0 <= k < |bases| && bases[k] == names[i];
    }
  }

  /** The standard resolver as the decoders use it: the joined header split
      and stripped again, and the count list. */
  function StandardOutput(header: string): (r: (seq<string>, seq<nat>))
    ensures var res := Resolve(Bases(header, false)); r.0 == res.names && r.1 == res.counts
  {
    var (filtered, sizes) := FilterDuplicateHeaders(header);
    (DeviceNames(filtered), sizes)
  }

  /** The process_benji2_motec.py resolver as that decoder uses it: the
      returned list, and the dictionary looked up for each of its names. */
  function KeepNulOutput(header: string): (r: (seq<string>, seq<nat>))
    ensures var res := Resolve(Bases(header, true)); r.0 == res.names && r.1 == res.counts
  {
    var t := FilterDuplicateHeadersKeepNul(header);
    var counts := CountList(t.order, t.counts);
    assert counts == Resolve(Bases(header, true)).counts;
    (t.order, counts)
  }

  /** The names and counts a revision's resolver hands to the device loop. */
  function ResolverOutput(header: string, resolver: Resolver): (r: (seq<string>, seq<nat>))
    ensures r.0 == ResolvedOf(header, resolver).names && r.1 == ResolvedOf(header, resolver).counts
  {
    match resolver
    case Standard => StandardOutput(header)
    case KeepNul => KeepNulOutput(header)
  }

  /** The channels a decoded header gives under a revision, with the names
      the revision uses for its own header line. */
  function ChannelsOf(header: string, rev: Revision): (r: (seq<string>, seq<Device>))
    ensures r.0 == ResolvedOf(header, rev.resolver).names
    ensures Describes(r.1, header, rev)
  {
    var (names, counts) := ResolverOutput(header, rev.resolver);
    NamesTrimmed(Bases(header, rev.resolver.KeepNul?));
    ChannelsBuild(rev, names, counts);
    (names, Channels(rev.build, names, Widths(rev.sizing, counts)).value)
  }

  /** The header length a file announces, minus the terminator count. */
  function Announced(file: seq<byte>, terminator: nat): int
  {
    HeaderLength(Read(Open(file), 4).0, terminator)
  }

  /** The stream after f.read(4) on a freshly opened file. */
  function AfterPrefix(file: seq<byte>): (s: Stream)
    ensures s.data == file && s.pos == Min(4, |file|)
  {
    Read(Open(file), 4).1
  }

  /** The length prefix is the file's first four bytes, or all of a shorter
      file. */
  lemma PrefixBytes(file: seq<byte>, terminator: nat)
    ensures Announced(file, terminator) == LittleEndian(file[..Min(4, |file|)]) - terminator
  {
  }

  /** The header bytes and the stream past them, for a length the reader
      accepts. */
  function HeaderBytes(file: seq<byte>, terminator: nat): (r: (seq<byte>, Stream))
    requires Announced(file, terminator) >= -1
    ensures r.1.data == file
  {
    Read(AfterPrefix(file), Announced(file, terminator))
  }

  /** The decoded header text, when it decodes. */
  function HeaderText(file: seq<byte>, terminator: nat, utf8: Utf8): Option<string>
    requires Announced(file, terminator) >= -1
  {
    utf8(HeaderBytes(file, terminator).0)
  }

  /** Whether a revision's empty-file guard skips the file. */
  predicate Guarded(rev: Revision, file: seq<byte>)
  {
    rev.guard && Announced(file, rev.terminator) <= 0
  }

  /** What a decoder knows once the header is read: the names, the devices,
      the header bytes (the `data` variable at that point) and the stream
      just past them. */
  datatype Front = Front(names: seq<string>, devices: seq<Device>, text: seq<byte>, rest: Stream)

  /** The length prefix, the guard, f.read(headerLen), the UTF-8 decode, the
      resolver and the channel build. */
  function FrontOf(rev: Revision, file: seq<byte>, utf8: Utf8): (r: Parse<Front>)
    ensures !r.Hangs?
    ensures r.Skipped? <==> Guarded(rev, file)
    ensures !Guarded(rev, file) && Announced(file, rev.terminator) < -1 ==> r == Raised(ValueError)
    ensures !Guarded(rev, file) && Announced(file, rev.terminator) >= -1 ==>
      ((r.Raised? <==> HeaderText(file, rev.terminator, utf8).None?) &&
       (r.Raised? ==> r.error == UnicodeDecodeError))
    ensures r.Written? ==>
      Announced(file, rev.terminator) >= -1 && HeaderText(file, rev.terminator, utf8).Some? &&
      r.value.text == HeaderBytes(file, rev.terminator).0 && r.value.rest == HeaderBytes(file, rev.terminator).1 &&
      r.value.names == ResolvedOf(HeaderText(file, rev.terminator, utf8).value, rev.resolver).names &&
      Describes(r.value.devices, HeaderText(file, rev.terminator, utf8).value, rev) &&
      r.value.devices == ChannelsOf(HeaderText(file, rev.terminator, utf8).value, rev).1
  {
    var len := Announced(file, rev.terminator);
    if rev.guard && len <= 0 then Skipped
    else
      match ReadAny(AfterPrefix(file), len)
      case Failure(e) => Raised(e)
      case Success((text, rest)) =>
        match utf8(text)
        case None => Raised(UnicodeDecodeError)
        case Some(header) =>
          var (names, devices) := ChannelsOf(header, rev);
          Written(Front(names, devices, text, rest))
  }

  /** How far a peek seeks back after reading w bytes for the first channel. */
  function Back(peek: Peek, w: nat): nat
  {
    match peek
    case NoPeek => 0
    case PeekBack(k) => k
    case PeekBackWidth => w
  }

  /** Where the frame loop starts, and the `data` its `while data` tests
      first: the header bytes when nothing is peeked, else the peeked bytes
      with the stream moved back. */
  function Start(peek: Peek, w: nat, s: Stream, text: seq<byte>): (r: Result<(Stream, seq<byte>)>)
    ensures peek.NoPeek? ==> r == Success((s, text))
    ensures !peek.NoPeek? ==>
      var d := Read(s, w).0;
      (r.Failure? <==> s.pos + |d| < Back(peek, w)) &&
      (r.Failure? ==> r.error == InvalidSeek) &&
      (r.Success? ==> r.value.1 == d && r.value.0.data == s.data && r.value.0.pos == s.pos + |d| - Back(peek, w))
  {
    if peek.NoPeek? then Success((s, text))
    else
      var (d, t) := Read(s, w);
      match SeekBack(t, Back(peek, w))
      case Failure(e) => Failure(e)
      case Success(u) => Success((u, d))
  }

  /** The terminator skip and the peek, from the stream past the header:
      the skip stops at the end of the data, the peek reads up to w bytes
      from there, and the seek back fails when it would pass byte 0. The
      loop's guard first tests the header bytes when nothing is peeked and
      the peeked bytes otherwise. */
  function Begin(rev: Revision, w: nat, rest: Stream, text: seq<byte>): (r: Result<(Stream, seq<byte>)>)
    ensures var a := Min(rest.pos + rev.skip, |rest.data|);
      var p := if rev.peek.NoPeek? then 0 else Min(w, |rest.data| - a);
      (r.Failure? <==> !rev.peek.NoPeek? && a + p < Back(rev.peek, w)) &&
      (r.Failure? ==> r.error == InvalidSeek) &&
      (r.Success? ==> (r.value.0.data == rest.data && r.value.0.pos == a + p - Back(rev.peek, w) &&
        r.value.1 == (if rev.peek.NoPeek? then text else rest.data[a..a + p])))
  {
    Start(rev.peek, w, Read(rest, rev.skip).1, text)
  }

  /** The revision's frame loop from s, with `data` the bytes its guard
      tests first. */
  function Loop(ds: seq<Device>, sentinel: bool, policy: Policy, s: Stream, data: seq<byte>): (o: Outcome)
    requires Indexed(ds)
    ensures o.Finished? ==> Numbered(o.rows, 0, |ds|)
  {
    match policy
    case CompleteFrames => CompleteLoop(ds, sentinel, s, 0)
    case CompleteWhileData => if |data| == 0 then Finished([]) else CompleteLoop(ds, sentinel, s, 0)
    case TrailingRow => TrailingLoop(ds, sentinel, s, data, 0)
  }

  /** A loop never returns exactly when its guard lets it start and its
      frames read nothing. */
  lemma LoopEndless(ds: seq<Device>, sentinel: bool, policy: Policy, s: Stream, data: seq<byte>)
    requires Indexed(ds)
    ensures Loop(ds, sentinel, policy, s, data).Endless? <==>
      Cut(ds, sentinel) == 0 && (policy.CompleteFrames? || |data| > 0)
  {
    CompleteEndless(ds, sentinel, s, 0);
    TrailingEndless(ds, sentinel, s, data, 0);
  }

  /** With at least one device to read, the frames read nothing exactly
      when the sentinel decoders meet CH_COUNT first. */
  lemma CutEmpty(ds: seq<Device>, sentinel: bool)
    requires |ds| >= 1
    ensures Cut(ds, sentinel) == 0 <==> sentinel && ds[0].name == ChCount
  {
  }

  /** What a decoder wrote: its channels, where its loop started, the bytes
      its loop guard tested first, and the rows of the loop. */
  datatype Body = Body(front: Front, start: Stream, data: seq<byte>, rows: seq<Row>)

  /** The skip, the peek and the loop, once the header is read. */
  function Continue(rev: Revision, front: Front): (r: Parse<Body>)
    requires |front.devices| >= 1 && Indexed(front.devices)
    ensures !r.Skipped?
    ensures r.Raised? ==> r.error == InvalidSeek && !rev.peek.NoPeek?
    ensures r.Written? ==> r.value.front == front && Numbered(r.value.rows, 0, |front.devices|)
    ensures var b := Begin(rev, front.devices[0].width, front.rest, front.text);
      (r.Raised? <==> b.Failure?) &&
      (r.Written? ==> b.Success? && r.value.start == b.value.0 && r.value.data == b.value.1)
  {
    var ds := front.devices;
    match Begin(rev, ds[0].width, front.rest, front.text)
    case Failure(e) => Raised(e)
    case Success((start, data)) =>
      match Loop(ds, rev.sentinel, rev.policy, start, data)
      case Endless => Hangs
      case Finished(rows) => Written(Body(front, start, data, rows))
  }

  /** parseBenji2File for one file under a revision. */
  function Run(rev: Revision, file: seq<byte>, utf8: Utf8): (r: Parse<Body>)
    ensures r.Written? ==> (Indexed(r.value.front.devices) && Positive(r.value.front.devices) &&
      |r.value.front.devices| >= 1 && Numbered(r.value.rows, 0, |r.value.front.devices|))
  {
    match FrontOf(rev, file, utf8)
    case Skipped => Skipped
    case Hangs => Hangs
    case Raised(e) => Raised(e)
    case Written(front) => Continue(rev, front)
  }

  /** Where the header bytes end: the announced length past the prefix,
      or the end of a file too short for it; a length of -1 reads it all. */
  function HeaderEnd(file: seq<byte>, terminator: nat): (p: nat)
    requires Announced(file, terminator) >= -1
    ensures p <= |file| && Min(4, |file|) <= p
    ensures Announced(file, terminator) == -1 ==> p == |file|
    ensures Announced(file, terminator) >= 0 ==> p == Min(Min(4, |file|) + Announced(file, terminator), |file|)
    ensures |HeaderBytes(file, terminator).0| == p - Min(4, |file|)
  {
    HeaderBytes(file, terminator).1.pos
  }

  /** Where the terminator skip leaves the stream. */
  function AfterSkip(rev: Revision, file: seq<byte>): nat
    requires Announced(file, rev.terminator) >= -1
  {
    Min(HeaderEnd(file, rev.terminator) + rev.skip, |file|)
  }

  /** How many bytes the peek for a w-byte first channel gets. */
  function Peeked(rev: Revision, file: seq<byte>, w: nat): nat
    requires Announced(file, rev.terminator) >= -1
  {
    if rev.peek.NoPeek? then 0 else Min(w, |file| - AfterSkip(rev, file))
  }

  /** The peek's seek back would pass byte 0: Python raises OSError. */
  predicate SeekFails(rev: Revision, file: seq<byte>, w: nat)
    requires Announced(file, rev.terminator) >= -1
  {
    !rev.peek.NoPeek? && AfterSkip(rev, file) + Peeked(rev, file, w) < Back(rev.peek, w)
  }

  /** Where the frame loop starts: past the skip and the peek, less the
      seek back. With a whole peek this moves the stream w minus the seek
      distance bytes past the skip. */
  function LoopStart(rev: Revision, file: seq<byte>, w: nat): int
    requires Announced(file, rev.terminator) >= -1
  {
    AfterSkip(rev, file) + Peeked(rev, file, w) - Back(rev.peek, w)
  }

  /** How many bytes the loop guard tests first: the header bytes when
      nothing is peeked, else the peeked bytes. */
  function GuardBytes(rev: Revision, file: seq<byte>, w: nat): nat
    requires Announced(file, rev.terminator) >= -1
  {
    if rev.peek.NoPeek? then HeaderEnd(file, rev.terminator) - Min(4, |file|) else Peeked(rev, file, w)
  }

  /** The skip and the peek of a run whose header was read, in terms of the
      file: the seek fails exactly when SeekFails says, and otherwise the
      loop starts at LoopStart with GuardBytes bytes for its guard. */
  lemma BeginOfFile(rev: Revision, file: seq<byte>, utf8: Utf8)
    requires FrontOf(rev, file, utf8).Written?
    ensures var front := FrontOf(rev, file, utf8).value;
      var w := front.devices[0].width;
      var b := Begin(rev, w, front.rest, front.text);
      (b.Failure? <==> SeekFails(rev, file, w)) &&
      (b.Success? ==> StartsAt(rev, file, w, b.value.0, b.value.1))
  {
    var front := FrontOf(rev, file, utf8).value;
    BeginAt(rev, file, front.devices[0].width, front.rest, front.text);
  }

  /** BeginOfFile for any stream that stands just past the header bytes. */
  lemma BeginAt(rev: Revision, file: seq<byte>, w: nat, rest: Stream, text: seq<byte>)
    requires Announced(file, rev.terminator) >= -1
    requires rest == HeaderBytes(file, rev.terminator).1 && text == HeaderBytes(file, rev.terminator).0
    ensures var b := Begin(rev, w, rest, text);
      (b.Failure? <==> SeekFails(rev, file, w)) &&
      (b.Success? ==> StartsAt(rev, file, w, b.value.0, b.value.1))
  {
    assert rest.data == file && rest.pos == HeaderEnd(file, rev.terminator);
  }

  /** Where a revision's frame loop starts reading, and the guard bytes it
      tests first. */
  predicate StartsAt(rev: Revision, file: seq<byte>, w: nat, start: Stream, data: seq<byte>)
    requires Announced(file, rev.terminator) >= -1
  {
    start.data == file && start.pos == LoopStart(rev, file, w) && |data| == GuardBytes(rev, file, w)
  }

  /** How a revision's run ends before its loop: skipped exactly when the
      guard holds; otherwise ValueError exactly when the announced length
      is below -1, and UnicodeDecodeError exactly when the header bytes do
      not decode; the only other exception is a peek seeking before byte 0. */
  lemma RunOutcome(rev: Revision, file: seq<byte>, utf8: Utf8)
    ensures var r := Run(rev, file, utf8); var len := Announced(file, rev.terminator);
      (r.Skipped? <==> Guarded(rev, file)) &&
      (!Guarded(rev, file) && len < -1 ==> r == Raised(ValueError)) &&
      (!Guarded(rev, file) && len >= -1 ==>
        (HeaderText(file, rev.terminator, utf8).None? <==> r == Raised(UnicodeDecodeError))) &&
      (r.Raised? ==> (r.error == ValueError || r.error == UnicodeDecodeError ||
        (r.error == InvalidSeek && !rev.peek.NoPeek?)))
  {
    var f := FrontOf(rev, file, utf8);
    if f.Written? {
      var c := Continue(rev, f.value);
      assert Run(rev, file, utf8) == c;
    }
  }

  /** A revision whose header decodes hangs only when its frames stop at a
      leading CH_COUNT; when it writes, the channels are those the header
      describes and the loop starts where StartsAt says. */
  lemma RunBody(rev: Revision, file: seq<byte>, utf8: Utf8)
    requires !Guarded(rev, file) && Announced(file, rev.terminator) >= -1
    requires HeaderText(file, rev.terminator, utf8).Some?
    ensures var r := Run(rev, file, utf8);
      var header := HeaderText(file, rev.terminator, utf8).value;
      (r.Written? ==> (Describes(r.value.front.devices, header, rev) &&
        r.value.front.devices == ChannelsOf(header, rev).1 &&
        r.value.front.names == ResolvedOf(header, rev.resolver).names &&
        StartsAt(rev, file, r.value.front.devices[0].width, r.value.start, r.value.data))) &&
      (r.Hangs? ==> rev.sentinel && ResolvedOf(header, rev.resolver).names[0] == ChCount)
  {
    var front := FrontOf(rev, file, utf8).value;
    var ds := front.devices;
    var st := Begin(rev, ds[0].width, front.rest, front.text);
    BeginOfFile(rev, file, utf8);
    if st.Success? {
      LoopEndless(ds, rev.sentinel, rev.policy, st.value.0, st.value.1);
      CutEmpty(ds, rev.sentinel);
    }
    assert Run(rev, file, utf8) == Continue(rev, front);
  }

  /** Without the CH_COUNT stop, a run always returns: every frame reads
      the first channel, whose width is at least 1. */
  lemma RunReturns(rev: Revision, file: seq<byte>, utf8: Utf8)
    requires !rev.sentinel
    ensures !Run(rev, file, utf8).Hangs?
  {
    RunOutcome(rev, file, utf8);
    if !Guarded(rev, file) && Announced(file, rev.terminator) >= -1 && HeaderText(file, rev.terminator, utf8).Some? {
      RunBody(rev, file, utf8);
    }
  }

  /** A written run has one resolved name per channel. */
  lemma RunNames(rev: Revision, file: seq<byte>, utf8: Utf8)
    ensures var r := Run(rev, file, utf8); r.Written? ==> |r.value.front.names| == |r.value.front.devices|
  {
    var f := FrontOf(rev, file, utf8);
    if f.Written? {
      assert Run(rev, file, utf8) == Continue(rev, f.value);
    }
  }

  /** Once the header decodes, the run raises exactly when the peek's seek
      back would pass byte 0. */
  lemma RunSeek(rev: Revision, file: seq<byte>, utf8: Utf8)
    requires !Guarded(rev, file) && Announced(file, rev.terminator) >= -1
    requires HeaderText(file, rev.terminator, utf8).Some?
    ensures var ds := ChannelsOf(HeaderText(file, rev.terminator, utf8).value, rev).1;
      |ds| >= 1 &&
      (Run(rev, file, utf8).Raised? <==> SeekFails(rev, file, ds[0].width)) &&
      (Run(rev, file, utf8).Raised? ==> Run(rev, file, utf8).error == InvalidSeek)
  {
    var front := FrontOf(rev, file, utf8).value;
    BeginOfFile(rev, file, utf8);
    assert Run(rev, file, utf8) == Continue(rev, front);
  }

  /** The loop part of a run never returns exactly when the seek succeeds,
      the frames read nothing, and the loop's guard lets it start. */
  lemma ContinueHangs(rev: Revision, front: Front)
    requires |front.devices| >= 1 && Indexed(front.devices)
    ensures var ds := front.devices; var b := Begin(rev, ds[0].width, front.rest, front.text);
      Continue(rev, front).Hangs? <==>
        b.Success? && Cut(ds, rev.sentinel) == 0 && (rev.policy.CompleteFrames? || |b.value.1| > 0)
  {
    var ds := front.devices;
    var b := Begin(rev, ds[0].width, front.rest, front.text);
    if b.Success? {
      LoopEndless(ds, rev.sentinel, rev.policy, b.value.0, b.value.1);
    }
  }

  /** A complete-frame run that writes had frames that read something:
      otherwise its loop would never end. */
  lemma ContinueCut(rev: Revision, front: Front)
    requires |front.devices| >= 1 && Indexed(front.devices)
    ensures Continue(rev, front).Written? && rev.policy.CompleteFrames? ==>
      Cut(front.devices, rev.sentinel) > 0
  {
    var ds := front.devices;
    var b := Begin(rev, ds[0].width, front.rest, front.text);
    if b.Success? {
      LoopEndless(ds, rev.sentinel, rev.policy, b.value.0, b.value.1);
    }
  }

  /** The first device carries the first resolved name. */
  lemma FirstName(ds: seq<Device>, header: string, rev: Revision)
    requires Describes(ds, header, rev)
    ensures ds[0].name == ResolvedOf(header, rev.resolver).names[0]
  {
  }

  /** Once the header decodes, the run never returns exactly when the seek
      succeeds, the frames stop at a leading CH_COUNT, and the loop's guard
      lets it start. */
  lemma RunHangs(rev: Revision, file: seq<byte>, utf8: Utf8)
    requires !Guarded(rev, file) && Announced(file, rev.terminator) >= -1
    requires HeaderText(file, rev.terminator, utf8).Some?
    ensures var c := ChannelsOf(HeaderText(file, rev.terminator, utf8).value, rev);
      |c.1| >= 1 &&
      (Run(rev, file, utf8).Hangs? <==>
        !SeekFails(rev, file, c.1[0].width) && rev.sentinel && c.0[0] == ChCount &&
        (rev.policy.CompleteFrames? || GuardBytes(rev, file, c.1[0].width) > 0))
  {
    var front := FrontOf(rev, file, utf8).value;
    FirstName(front.devices, HeaderText(file, rev.terminator, utf8).value, rev);
    CutEmpty(front.devices, rev.sentinel);
    ContinueHangs(rev, front);
    BeginOfFile(rev, file, utf8);
    assert Run(rev, file, utf8) == Continue(rev, front);
  }

  /** Row j of a loop started at s holds frame j: the fields at j * W bytes
      past s, W the frame width. */
  predicate FramesFrom(ds: seq<Device>, sentinel: bool, s: Stream, lines: seq<Line>)
    requires Indexed(ds)
  {
    var k := Cut(ds, sentinel);
    forall j :: 0 <= j < |lines| ==>
      lines[j] == Line(j + 1, Values(ds, FrameAt(ds, k, s, Offset(j, Span(ds, k)))))
  }

  /** The lines a complete-frame decoder writes from s: every frame whose
      last field starts before the end of the data, counted from 1. */
  lemma CompleteLines(ds: seq<Device>, sentinel: bool, s: Stream)
    requires Indexed(ds) && Positive(ds) && Cut(ds, sentinel) > 0
    ensures var k := Cut(ds, sentinel); var o := CompleteLoop(ds, sentinel, s, 0);
      Span(ds, k - 1) < Span(ds, k) &&
      o.Finished? && |o.rows| == RowCount(Remaining(s), Span(ds, k), Span(ds, k - 1)) &&
      FramesFrom(ds, sentinel, s, Lines(ds, o.rows))
  {
    CompleteRowCount(ds, sentinel, s, 0);
    CompleteRowsContent(ds, sentinel, s, 0);
    var rows := CompleteLoop(ds, sentinel, s, 0).rows;
    var k := Cut(ds, sentinel);
    forall j | 0 <= j < |rows|
      ensures Lines(ds, rows)[j] == Line(j + 1, Values(ds, FrameAt(ds, k, s, Offset(j, Span(ds, k)))))
    {
    }
  }

  /** The lines a trailing-row decoder writes from s: when its first read
      returned bytes, the complete frames and then one more frame whose last
      read came back empty, all counted from 1. */
  lemma TrailingLines(ds: seq<Device>, sentinel: bool, s: Stream, data: seq<byte>)
    requires Indexed(ds) && Positive(ds) && Cut(ds, sentinel) > 0
    ensures var k := Cut(ds, sentinel); var o := TrailingLoop(ds, sentinel, s, data, 0);
      Span(ds, k - 1) < Span(ds, k) &&
      o.Finished? &&
      |o.rows| == (if |data| == 0 then 0 else RowCount(Remaining(s), Span(ds, k), Span(ds, k - 1)) + 1) &&
      FramesFrom(ds, sentinel, s, Lines(ds, o.rows))
  {
    TrailingRowCount(ds, sentinel, s, data, 0);
    TrailingRowsContent(ds, sentinel, s, data, 0);
    var rows := TrailingLoop(ds, sentinel, s, data, 0).rows;
    var k := Cut(ds, sentinel);
    forall j | 0 <= j < |rows|
      ensures Lines(ds, rows)[j] == Line(j + 1, Values(ds, FrameAt(ds, k, s, Offset(j, Span(ds, k)))))
    {
    }
  }

  /** How many rows a revision's loop writes from r remaining bytes, w the
      frame width and lead the offset of the frame's last field. */
  function RowsExpected(policy: Policy, r: nat, guard: nat, w: nat, lead: nat): nat
    requires lead < w
  {
    match policy
    case CompleteFrames => RowCount(r, w, lead)
    case CompleteWhileData => if guard == 0 then 0 else RowCount(r, w, lead)
    case TrailingRow => if guard == 0 then 0 else RowCount(r, w, lead) + 1
  }

  /** Any loop whose frames read something ends, with the expected number
      of rows, each the frame at its offset, counted from 1. */
  lemma LoopLines(ds: seq<Device>, sentinel: bool, policy: Policy, s: Stream, data: seq<byte>)
    requires Indexed(ds) && Positive(ds) && Cut(ds, sentinel) > 0
    ensures var k := Cut(ds, sentinel); var o := Loop(ds, sentinel, policy, s, data);
      Span(ds, k - 1) < Span(ds, k) && o.Finished? &&
      |o.rows| == RowsExpected(policy, Remaining(s), |data|, Span(ds, k), Span(ds, k - 1)) &&
      FramesFrom(ds, sentinel, s, Lines(ds, o.rows))
  {
    CompleteLines(ds, sentinel, s);
    TrailingLines(ds, sentinel, s, data);
  }

  /** The rows of a written run in closed form: none when the frames read
      nothing, else the expected number of frames from where the loop
      started, counted from 1. */
  predicate RowsClosed(rev: Revision, b: Body)
    requires Indexed(b.front.devices) && Numbered(b.rows, 0, |b.front.devices|)
  {
    var ds := b.front.devices; var k := Cut(ds, rev.sentinel);
    (k == 0 ==> b.rows == []) &&
    (k > 0 ==> (Span(ds, k - 1) < Span(ds, k) &&
      |b.rows| == RowsExpected(rev.policy, Remaining(b.start), |b.data|, Span(ds, k), Span(ds, k - 1)) &&
      FramesFrom(ds, rev.sentinel, b.start, Lines(ds, b.rows))))
  }

  /** The loop part of a run writes its rows in closed form. */
  lemma ContinueRows(rev: Revision, front: Front)
    requires |front.devices| >= 1 && Indexed(front.devices) && Positive(front.devices)
    ensures var r := Continue(rev, front); r.Written? ==> RowsClosed(rev, r.value)
  {
    var r := Continue(rev, front);
    if r.Written? {
      var ds := front.devices;
      LoopEndless(ds, rev.sentinel, rev.policy, r.value.start, r.value.data);
      if Cut(ds, rev.sentinel) > 0 {
        LoopLines(ds, rev.sentinel, rev.policy, r.value.start, r.value.data);
      }
    }
  }

  /** A written run's rows, in closed form. */
  lemma RunRows(rev: Revision, file: seq<byte>, utf8: Utf8)
    ensures var r := Run(rev, file, utf8); r.Written? ==> RowsClosed(rev, r.value)
    ensures var r := Run(rev, file, utf8); r.Written? && rev.policy.CompleteFrames? ==>
      Cut(r.value.front.devices, rev.sentinel) > 0
  {
    var f := FrontOf(rev, file, utf8);
    if f.Written? {
      ContinueRows(rev, f.value);
      ContinueCut(rev, f.value);
      assert Run(rev, file, utf8) == Continue(rev, f.value);
    }
  }
}
