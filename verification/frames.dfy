/** The frame loop shared by the .benji2 decoders: one field per device, in
    device order, each slot placed by the device's column, and a 1-based
    counter per written row. The revisions differ in whether a frame stops
    at the CH_COUNT marker, and in whether a frame that ran into the end of
    the data is dropped (complete-frame decoders) or written with its
    missing fields decoded from empty reads (trailing-row decoders). */
module Frames {
  import opened Common
  import opened Bytes
  import opened Streams
  import opened Devices

  /** The marker channel at which the sentinel decoders stop a frame. */
  const ChCount: string := "CH_COUNT"

  /** How many devices a frame reads: all of them, or with the sentinel only
      those before the first CH_COUNT. */
  function Cut(ds: seq<Device>, sentinel: bool): (k: nat)
    ensures k <= |ds|
  {
    if |ds| == 0 || (sentinel && ds[0].name == ChCount) then 0
    else 1 + Cut(ds[1..], sentinel)
  }

  /** The cut is the position of the first CH_COUNT under the sentinel, and
      the end of the list otherwise. */
  lemma {:induction false} CutIsFirstMarker(ds: seq<Device>, sentinel: bool)
    ensures var k := Cut(ds, sentinel);
      (forall i :: 0 <= i < k ==> !sentinel || ds[i].name != ChCount) &&
      (k < |ds| ==> sentinel && ds[k].name == ChCount)
  {
    if |ds| > 0 && !(sentinel && ds[0].name == ChCount) {
      CutIsFirstMarker(ds[1..], sentinel);
      assert forall i :: 1 <= i < |ds| ==> ds[i] == ds[1..][i - 1];
    }
  }

  /** Without the sentinel a frame reads every device. */
  lemma {:induction false} CutAll(ds: seq<Device>)
    ensures Cut(ds, false) == |ds|
  {
    if |ds| > 0 {
      CutAll(ds[1..]);
    }
  }

  /** Total width of the first k devices: where field k starts in a frame. */
  function Span(ds: seq<Device>, k: nat): nat
    requires k <= |ds|
  {
    if k == 0 then 0 else Span(ds, k - 1) + ds[k - 1].width
  }

  /** Every width is at least one byte, as the header counts guarantee. */
  predicate Positive(ds: seq<Device>)
  {
    forall i :: 0 <= i < |ds| ==> ds[i].width >= 1
  }

  lemma {:induction false} SpanMonotone(ds: seq<Device>, i: nat, j: nat)
    requires i <= j <= |ds|
    ensures Span(ds, i) <= Span(ds, j)
    ensures Positive(ds) ==> Span(ds, i) + (j - i) <= Span(ds, j)
    decreases j
  {
    if i < j {
      SpanMonotone(ds, i, j - 1);
    }
  }

  /** The bytes a read of w bytes at offset off past the stream's position
      returns: cut short at the end of the data, empty beyond it. */
  function Field(s: Stream, off: nat, w: nat): (bs: seq<byte>)
    ensures |bs| <= w
    ensures |bs| == 0 <==> w == 0 || s.pos + off >= |s.data|
  {
    s.data[Min(s.pos + off, |s.data|)..Min(s.pos + off + w, |s.data|)]
  }

  /** Reading at offset off from a stream w bytes further on (or at the end)
      is reading at offset w + off from the earlier one. */
  lemma FieldShift(s: Stream, next: Stream, w: nat, off: nat, width: nat)
    requires next.data == s.data && next.pos == Min(s.pos + w, |s.data|)
    ensures Field(next, off, width) == Field(s, w + off, width)
  {
  }

  /** A slot of a row as the frame loop leaves it: the bytes its device
      read, or None for a device the frame did not reach. getData is a pure
      function of those bytes, so the decoded row is Values of the slots. */
  type Slot = Option<seq<byte>>

  /** The decoded row: each read slot through its device's getData. */
  function Values(ds: seq<Device>, slots: seq<Slot>): (vs: seq<Option<real>>)
    requires |slots| == |ds|
    ensures |vs| == |ds|
  {
    seq(|ds|, i requires 0 <= i < |ds| => if slots[i].Some? then Some(GetData(ds[i], slots[i].value)) else None)
  }

  /** Slots of a fresh row: [None] * len(devices). */
  function Nones(n: nat): (slots: seq<Slot>)
    ensures |slots| == n && forall i :: 0 <= i < n ==> slots[i] == None
  {
    seq(n, _ => None)
  }

  /** The state after a frame: the row's slots, the stream, and the last
      bytes assigned to `data`. */
  datatype Fill = Fill(slots: seq<Slot>, next: Stream, last: seq<byte>)

  /** One step of a frame: read device i's field, store its decoded value
      in the device's slot and keep the bytes in `data`. */
  function ReadInto(ds: seq<Device>, i: nat, cur: Stream, slots: seq<Slot>): (f: Fill)
    requires i < |ds| && Indexed(ds) && |slots| == |ds|
    ensures |f.slots| == |ds| && f.next.data == cur.data && cur.pos <= f.next.pos
    ensures f.slots == slots[i := Some(f.last)]
    ensures (f.last, f.next) == Read(cur, ds[i].width)
  {
    var (data, next) := Read(cur, ds[i].width);
    Fill(slots[ds[i].column := Some(data)], next, data)
  }

  /** A trailing-row frame from device i up to the cut k: every device is
      read and decoded, an empty read included (it decodes as 0). */
  function FillTrailing(ds: seq<Device>, k: nat, i: nat, cur: Stream,
                        slots: seq<Slot>, last: seq<byte>): (f: Fill)
    requires i <= k <= |ds| && Indexed(ds) && |slots| == |ds|
    ensures |f.slots| == |ds| && f.next.data == cur.data && cur.pos <= f.next.pos
    decreases k - i
  {
    if i == k then Fill(slots, cur, last)
    else
      var f := ReadInto(ds, i, cur, slots);
      FillTrailing(ds, k, i + 1, f.next, f.slots, f.last)
  }

  /** A complete-frame frame from device i up to the cut k: the first empty
      read abandons the frame (None). */
  function FillComplete(ds: seq<Device>, k: nat, i: nat, cur: Stream,
                        slots: seq<Slot>, last: seq<byte>): (r: Option<Fill>)
    requires i <= k <= |ds| && Indexed(ds) && |slots| == |ds|
    ensures r.Some? ==> |r.value.slots| == |ds| && r.value.next.data == cur.data && cur.pos <= r.value.next.pos
    decreases k - i
  {
    if i == k then Some(Fill(slots, cur, last))
    else
      var f := ReadInto(ds, i, cur, slots);
      if |f.last| == 0 then None
      else FillComplete(ds, k, i + 1, f.next, f.slots, f.last)
  }

  /** A frame the complete-frame decoder keeps is the frame the
      trailing-row decoder reads. */
  lemma {:induction false} CompleteIsTrailing(ds: seq<Device>, k: nat, i: nat, cur: Stream,
                                              slots: seq<Slot>, last: seq<byte>)
    requires i <= k <= |ds| && Indexed(ds) && |slots| == |ds|
    ensures var r := FillComplete(ds, k, i, cur, slots, last);
      r.Some? ==> r.value == FillTrailing(ds, k, i, cur, slots, last)
    decreases k - i
  {
    if i < k {
      var f := ReadInto(ds, i, cur, slots);
      CompleteIsTrailing(ds, k, i + 1, f.next, f.slots, f.last);
    }
  }

  /** `cur` is where field i of a frame that started at s begins. */
  predicate At(s: Stream, ds: seq<Device>, i: nat, cur: Stream)
    requires i <= |ds|
  {
    cur.data == s.data && cur.pos == Min(s.pos + Span(ds, i), |s.data|)
  }

  /** Reading field i of a frame that started at s returns the bytes at
      offset Span(ds, i) and moves on to where field i + 1 begins. */
  lemma ReadField(s: Stream, ds: seq<Device>, i: nat, cur: Stream, slots: seq<Slot>)
    requires i < |ds| && Indexed(ds) && |slots| == |ds| && At(s, ds, i, cur)
    ensures var f := ReadInto(ds, i, cur, slots);
      f.last == Field(s, Span(ds, i), ds[i].width) && At(s, ds, i + 1, f.next)
  {
  }

  /** Reading field i of a frame that started at s comes back empty exactly
      when the field has no byte to read, and moves on to where field i + 1
      begins. */
  lemma ReadFieldPos(s: Stream, ds: seq<Device>, i: nat, cur: Stream, slots: seq<Slot>)
    requires i < |ds| && Indexed(ds) && |slots| == |ds| && At(s, ds, i, cur)
    ensures var f := ReadInto(ds, i, cur, slots);
      (|f.last| > 0 <==> HasBytes(s, ds, i)) && At(s, ds, i + 1, f.next)
  {
  }

  /** The closed form of a frame: slot j holds device j's field decoded from
      the bytes at offset Span(ds, j), for every j before the cut; the slots
      from the cut on keep their value (None in a fresh row). */
  lemma FrameSlots(s: Stream, ds: seq<Device>, k: nat, i: nat, cur: Stream,
                   slots: seq<Slot>, last: seq<byte>)
    requires i <= k <= |ds| && Indexed(ds) && |slots| == |ds| && At(s, ds, i, cur)
    ensures var f := FillTrailing(ds, k, i, cur, slots, last);
      (forall j :: i <= j < k ==> f.slots[j] == Some(Field(s, Span(ds, j), ds[j].width))) &&
      (forall j :: 0 <= j < i || k <= j < |ds| ==> f.slots[j] == slots[j])
  {
    forall j | i <= j < k
      ensures FillTrailing(ds, k, i, cur, slots, last).slots[j] == Some(Field(s, Span(ds, j), ds[j].width))
    {
      FrameSlotRead(s, ds, k, i, cur, slots, last, j);
    }
    forall j | 0 <= j < i || k <= j < |ds|
      ensures FillTrailing(ds, k, i, cur, slots, last).slots[j] == slots[j]
    {
      FrameSlotKept(ds, k, i, cur, slots, last, j);
    }
  }

  /** Slot j of a frame's row, for a device the frame reads. */
  lemma {:induction false} FrameSlotRead(s: Stream, ds: seq<Device>, k: nat, i: nat, cur: Stream,
                                         slots: seq<Slot>, last: seq<byte>, j: nat)
    requires i <= j < k <= |ds| && Indexed(ds) && |slots| == |ds| && At(s, ds, i, cur)
    ensures FillTrailing(ds, k, i, cur, slots, last).slots[j] == Some(Field(s, Span(ds, j), ds[j].width))
    decreases k - i
  {
    var f := ReadInto(ds, i, cur, slots);
    if j == i {
      ReadField(s, ds, i, cur, slots);
      FrameSlotKept(ds, k, i + 1, f.next, f.slots, f.last, j);
    } else {
      ReadFieldPos(s, ds, i, cur, slots);
      FrameSlotRead(s, ds, k, i + 1, f.next, f.slots, f.last, j);
    }
  }

  /** Slot j of a frame's row, for a device the frame does not read. */
  lemma {:induction false} FrameSlotKept(ds: seq<Device>, k: nat, i: nat, cur: Stream,
                                         slots: seq<Slot>, last: seq<byte>, j: nat)
    requires i <= k <= |ds| && Indexed(ds) && |slots| == |ds| && (j < i || k <= j < |ds|)
    ensures FillTrailing(ds, k, i, cur, slots, last).slots[j] == slots[j]
    decreases k - i
  {
    if i < k {
      var f := ReadInto(ds, i, cur, slots);
      FrameSlotKept(ds, k, i + 1, f.next, f.slots, f.last, j);
    }
  }

  /** A frame ends where field k would begin, with `data` holding the last
      field read, or what it held before when nothing was read. */
  lemma FrameEnd(s: Stream, ds: seq<Device>, k: nat, i: nat, cur: Stream,
                 slots: seq<Slot>, last: seq<byte>)
    requires i <= k <= |ds| && Indexed(ds) && |slots| == |ds| && At(s, ds, i, cur)
    ensures var f := FillTrailing(ds, k, i, cur, slots, last);
      At(s, ds, k, f.next) &&
      (k > i ==> f.last == Field(s, Span(ds, k - 1), ds[k - 1].width)) &&
      (k == i ==> f.last == last)
  {
    FrameEndAt(s, ds, k, i, cur, slots, last);
    FrameEndLast(s, ds, k, i, cur, slots, last);
  }

  lemma {:induction false} FrameEndAt(s: Stream, ds: seq<Device>, k: nat, i: nat, cur: Stream,
                                      slots: seq<Slot>, last: seq<byte>)
    requires i <= k <= |ds| && Indexed(ds) && |slots| == |ds| && At(s, ds, i, cur)
    ensures At(s, ds, k, FillTrailing(ds, k, i, cur, slots, last).next)
    decreases k - i
  {
    if i < k {
      var f := ReadInto(ds, i, cur, slots);
      ReadFieldPos(s, ds, i, cur, slots);
      FrameEndAt(s, ds, k, i + 1, f.next, f.slots, f.last);
    }
  }

  lemma {:induction false} FrameEndLast(s: Stream, ds: seq<Device>, k: nat, i: nat, cur: Stream,
                                        slots: seq<Slot>, last: seq<byte>)
    requires i <= k <= |ds| && Indexed(ds) && |slots| == |ds| && At(s, ds, i, cur)
    ensures var f := FillTrailing(ds, k, i, cur, slots, last);
      (k > i ==> f.last == Field(s, Span(ds, k - 1), ds[k - 1].width)) &&
      (k == i ==> f.last == last)
    decreases k - i
  {
    if i < k {
      var f := ReadInto(ds, i, cur, slots);
      ReadField(s, ds, i, cur, slots);
      FrameEndLast(s, ds, k, i + 1, f.next, f.slots, f.last);
    }
  }

  /** Every field from i up to the cut has bytes to read. */
  predicate AllRead(s: Stream, ds: seq<Device>, i: nat, k: nat)
    requires k <= |ds|
  {
    forall j :: i <= j < k ==> HasBytes(s, ds, j)
  }

  /** Field j of the frame that started at s has at least one byte to read. */
  predicate HasBytes(s: Stream, ds: seq<Device>, j: nat)
    requires j < |ds|
  {
    ds[j].width > 0 && s.pos + Span(ds, j) < |s.data|
  }

  lemma AllReadStep(s: Stream, ds: seq<Device>, i: nat, k: nat)
    requires i < k <= |ds|
    ensures AllRead(s, ds, i, k) <==> HasBytes(s, ds, i) && AllRead(s, ds, i + 1, k)
  {
  }

  /** A complete-frame frame survives exactly when every read before the cut
      returns bytes. */
  lemma {:induction false} CompleteIff(s: Stream, ds: seq<Device>, k: nat, i: nat, cur: Stream,
                                       slots: seq<Slot>, last: seq<byte>)
    requires i <= k <= |ds| && Indexed(ds) && |slots| == |ds| && At(s, ds, i, cur)
    ensures FillComplete(ds, k, i, cur, slots, last).Some? <==> AllRead(s, ds, i, k)
    decreases k - i
  {
    if i < k {
      var f := ReadInto(ds, i, cur, slots);
      ReadFieldPos(s, ds, i, cur, slots);
      AllReadStep(s, ds, i, k);
      if |f.last| > 0 {
        CompleteIff(s, ds, k, i + 1, f.next, f.slots, f.last);
      }
    }
  }

  /** With positive widths the fields of a frame run out in order: a frame is
      complete exactly when its last field starts before the end. */
  lemma CompleteIffLastStarts(s: Stream, ds: seq<Device>, k: nat)
    requires 0 < k <= |ds| && Positive(ds)
    ensures AllRead(s, ds, 0, k) <==> s.pos + Span(ds, k - 1) < |s.data|
  {
    if s.pos + Span(ds, k - 1) < |s.data| {
      forall j | 0 <= j < k
        ensures HasBytes(s, ds, j)
      {
        SpanMonotone(ds, j, k - 1);
      }
    } else {
      assert !HasBytes(s, ds, k - 1);
    }
  }

  /** A written row: the counter and the slots, "None" where nothing was
      decoded. */
  datatype Row = Row(index: nat, slots: seq<Slot>)

  /** How a decoder's loop ends: with the rows it wrote, or never, because a
      frame that reads nothing leaves the loop state as it was. */
  datatype Outcome = Finished(rows: seq<Row>) | Endless

  /** Rows numbered on from `count`, one slot per device. */
  predicate Numbered(rows: seq<Row>, count: nat, n: nat)
  {
    forall j :: 0 <= j < |rows| ==> rows[j].index == count + j + 1 && |rows[j].slots| == n
  }

  /** The complete-frame loop (`while True` with an eof flag, a for/else, or
      a return on the first empty read): a frame is written only when no
      read came back empty, and the first empty read ends the loop. */
  function CompleteLoop(ds: seq<Device>, sentinel: bool, s: Stream, count: nat): (o: Outcome)
    requires Indexed(ds)
    ensures o.Finished? ==> Numbered(o.rows, count, |ds|)
    decreases Remaining(s)
  {
    match FillComplete(ds, Cut(ds, sentinel), 0, s, Nones(|ds|), [])
    case None => Finished([])
    case Some(f) =>
      if f.next.pos == s.pos then Endless
      else
        match CompleteLoop(ds, sentinel, f.next, count + 1)
        case Endless => Endless
        case Finished(rows) => Finished([Row(count + 1, f.slots)] + rows)
  }

  /** The trailing-row loop (`while data:`): every frame is written, fields
      read past the end decoding as 0, and the loop stops after a frame
      whose last read was empty. `data` starts as the bytes read just before
      the loop. */
  function TrailingLoop(ds: seq<Device>, sentinel: bool, s: Stream, data: seq<byte>, count: nat): (o: Outcome)
    requires Indexed(ds)
    ensures o.Finished? ==> Numbered(o.rows, count, |ds|)
    ensures o.Finished? && |data| > 0 ==> |o.rows| >= 1
    decreases Remaining(s), |data|
  {
    if |data| == 0 then Finished([])
    else
      var f := FillTrailing(ds, Cut(ds, sentinel), 0, s, Nones(|ds|), data);
      if f.next.pos == s.pos && |f.last| > 0 then Endless
      else
        match TrailingLoop(ds, sentinel, f.next, f.last, count + 1)
        case Endless => Endless
        case Finished(rows) => Finished([Row(count + 1, f.slots)] + rows)
  }

  /** A frame that read bytes with its last read moved the stream on. */
  lemma FrameProgress(ds: seq<Device>, k: nat, s: Stream, slots: seq<Slot>, data: seq<byte>)
    requires 0 < k <= |ds| && Indexed(ds) && |slots| == |ds|
    ensures var f := FillTrailing(ds, k, 0, s, slots, data);
      |f.last| > 0 ==> f.next.pos > s.pos
  {
    FrameEnd(s, ds, k, 0, s, slots, data);
    SpanMonotone(ds, k - 1, k);
  }

  /** A complete frame read bytes with every read, its last one included. */
  lemma CompleteFrameLast(ds: seq<Device>, k: nat, s: Stream)
    requires 0 < k <= |ds| && Indexed(ds)
    ensures var r := FillComplete(ds, k, 0, s, Nones(|ds|), []);
      r.Some? ==> |r.value.last| > 0
  {
    CompleteIsTrailing(ds, k, 0, s, Nones(|ds|), []);
    FrameEnd(s, ds, k, 0, s, Nones(|ds|), []);
    CompleteIff(s, ds, k, 0, s, Nones(|ds|), []);
    if FillComplete(ds, k, 0, s, Nones(|ds|), []).Some? {
      assert HasBytes(s, ds, k - 1);
    }
  }

  /** A complete-frame loop runs forever exactly when its frames read
      nothing: the first device is CH_COUNT under the sentinel, or there are
      no devices. */
  lemma {:induction false} CompleteEndless(ds: seq<Device>, sentinel: bool, s: Stream, count: nat)
    requires Indexed(ds)
    ensures CompleteLoop(ds, sentinel, s, count).Endless? <==> Cut(ds, sentinel) == 0
    decreases Remaining(s)
  {
    var k := Cut(ds, sentinel);
    var r := FillComplete(ds, k, 0, s, Nones(|ds|), []);
    if r.Some? && k > 0 {
      CompleteFrameLast(ds, k, s);
      FrameProgress(ds, k, s, Nones(|ds|), []);
      CompleteEndless(ds, sentinel, r.value.next, count + 1);
    }
  }

  /** A trailing-row loop runs forever exactly when it starts with data and
      its frames read nothing. */
  lemma {:induction false} TrailingEndless(ds: seq<Device>, sentinel: bool, s: Stream, data: seq<byte>, count: nat)
    requires Indexed(ds)
    ensures TrailingLoop(ds, sentinel, s, data, count).Endless? <==> Cut(ds, sentinel) == 0 && |data| > 0
    decreases Remaining(s), |data|
  {
    var k := Cut(ds, sentinel);
    if |data| > 0 && k > 0 {
      var f := FillTrailing(ds, k, 0, s, Nones(|ds|), data);
      FrameProgress(ds, k, s, Nones(|ds|), data);
      TrailingEndless(ds, sentinel, f.next, f.last, count + 1);
    }
  }

  /** One turn of a complete-frame loop whose frames read something: a
      surviving frame is written ahead of the rest, and an abandoned one
      ends the loop. */
  lemma CompleteLoopStep(ds: seq<Device>, sentinel: bool, s: Stream, count: nat)
    requires Indexed(ds) && Cut(ds, sentinel) > 0
    ensures var r := FillComplete(ds, Cut(ds, sentinel), 0, s, Nones(|ds|), []);
      var o := CompleteLoop(ds, sentinel, s, count);
      o.Finished? &&
      (r.None? ==> o.rows == []) &&
      (r.Some? ==> o.rows == [Row(count + 1, r.value.slots)] + CompleteLoop(ds, sentinel, r.value.next, count + 1).rows)
  {
    var k := Cut(ds, sentinel);
    var r := FillComplete(ds, k, 0, s, Nones(|ds|), []);
    CompleteEndless(ds, sentinel, s, count);
    if r.Some? {
      CompleteFrameLast(ds, k, s);
      FrameProgress(ds, k, s, Nones(|ds|), []);
      CompleteEndless(ds, sentinel, r.value.next, count + 1);
    }
  }

  /** One complete frame, with positive widths: it survives exactly when
      its last field starts before the end, and then moves one frame width
      on, or to the end. */
  lemma CompleteFrameStep(ds: seq<Device>, k: nat, s: Stream)
    requires 0 < k <= |ds| && Indexed(ds) && Positive(ds)
    ensures var r := FillComplete(ds, k, 0, s, Nones(|ds|), []);
      (r.Some? <==> Remaining(s) > Span(ds, k - 1)) &&
      (r.Some? ==> r.value.next.data == s.data && r.value.next.pos == Min(s.pos + Span(ds, k), |s.data|)) &&
      (r.Some? ==> Remaining(r.value.next) == if Remaining(s) >= Span(ds, k) then Remaining(s) - Span(ds, k) else 0)
  {
    CompleteFrameSurvives(ds, k, s);
    CompleteFrameNext(ds, k, s);
  }

  lemma CompleteFrameSurvives(ds: seq<Device>, k: nat, s: Stream)
    requires 0 < k <= |ds| && Indexed(ds) && Positive(ds)
    ensures FillComplete(ds, k, 0, s, Nones(|ds|), []).Some? <==> Remaining(s) > Span(ds, k - 1)
  {
    CompleteIff(s, ds, k, 0, s, Nones(|ds|), []);
    CompleteIffLastStarts(s, ds, k);
  }

  lemma CompleteFrameNext(ds: seq<Device>, k: nat, s: Stream)
    requires 0 < k <= |ds| && Indexed(ds)
    ensures var r := FillComplete(ds, k, 0, s, Nones(|ds|), []);
      r.Some? ==> r.value.next.data == s.data && r.value.next.pos == Min(s.pos + Span(ds, k), |s.data|)
  {
    CompleteIsTrailing(ds, k, 0, s, Nones(|ds|), []);
    FrameEndAt(s, ds, k, 0, s, Nones(|ds|), []);
  }

  /** Where frame n starts, with w bytes per frame: n * w, built up one
      frame at a time. */
  function Offset(n: nat, w: nat): (off: nat)
  {
    if n == 0 then 0 else Offset(n - 1, w) + w
  }

  lemma {:induction false} OffsetIsProduct(n: nat, w: nat)
    ensures Offset(n, w) == n * w
  {
    if n > 0 {
      OffsetIsProduct(n - 1, w);
      assert n * w == (n - 1) * w + w;
    }
  }

  /** The number of frames a complete-frame decoder keeps from r remaining
      bytes, w bytes per frame with the last field at offset lead: a frame is
      kept while its last field starts before the end. */
  function RowCount(r: nat, w: nat, lead: nat): nat
    requires lead < w
    decreases r
  {
    if r <= lead then 0 else 1 + RowCount(if r >= w then r - w else 0, w, lead)
  }

  /** RowCount(r) frames leave the next frame's last field at or past the
      end, while the last kept frame's last field started before it. */
  lemma {:induction false} RowCountBounds(r: nat, w: nat, lead: nat)
    requires lead < w
    ensures var n := RowCount(r, w, lead);
      Offset(n, w) + lead >= r && (n > 0 ==> Offset(n - 1, w) + lead < r)
    decreases r
  {
    if r > lead {
      var r' := if r >= w then r - w else 0;
      RowCountBounds(r', w, lead);
      var n := RowCount(r', w, lead);
      OffsetShift(n, w);
      if n > 0 {
        OffsetShift(n - 1, w);
      }
    }
  }

  /** Offset(n + 1, w) is one frame more than Offset(n, w). */
  lemma OffsetShift(n: nat, w: nat)
    ensures Offset(n + 1, w) == Offset(n, w) + w
  {
  }

  /** The rows a complete-frame decoder writes are exactly the frames whose
      last field starts before the end of the data: RowCount of the bytes
      remaining. A short final field still decodes, so its frame is kept. */
  lemma {:induction false} CompleteRowCount(ds: seq<Device>, sentinel: bool, s: Stream, count: nat)
    requires Indexed(ds) && Positive(ds) && Cut(ds, sentinel) > 0
    ensures var k := Cut(ds, sentinel);
      Span(ds, k - 1) < Span(ds, k) &&
      var o := CompleteLoop(ds, sentinel, s, count);
      o.Finished? && |o.rows| == RowCount(Remaining(s), Span(ds, k), Span(ds, k - 1))
    decreases Remaining(s)
  {
    var k := Cut(ds, sentinel);
    var w, lead := Span(ds, k), Span(ds, k - 1);
    SpanMonotone(ds, k - 1, k);
    CompleteFrameStep(ds, k, s);
    CompleteLoopStep(ds, sentinel, s, count);
    var r := FillComplete(ds, k, 0, s, Nones(|ds|), []);
    if r.Some? {
      var next := r.value.next;
      CompleteRowCount(ds, sentinel, next, count + 1);
    }
  }

  /** The row count in terms of frame offsets: n rows leave the (n+1)-th
      frame's last field at or past the end, while the n-th frame's started
      before it. */
  lemma CompleteRowBounds(ds: seq<Device>, sentinel: bool, s: Stream, count: nat)
    requires Indexed(ds) && Positive(ds) && Cut(ds, sentinel) > 0
    ensures var k := Cut(ds, sentinel); var w := Span(ds, k); var lead := Span(ds, k - 1);
      var o := CompleteLoop(ds, sentinel, s, count);
      o.Finished? && lead < w &&
      Offset(|o.rows|, w) + lead >= Remaining(s) &&
      (|o.rows| > 0 ==> Offset(|o.rows| - 1, w) + lead < Remaining(s))
  {
    var k := Cut(ds, sentinel);
    CompleteRowCount(ds, sentinel, s, count);
    RowCountBounds(Remaining(s), Span(ds, k), Span(ds, k - 1));
  }


  /** What slot i of the frame that starts `off` bytes past the stream's
      position holds: device i's field at offset off + Span(ds, i) for every
      device before the cut, None from the cut on. */
  function Expected(ds: seq<Device>, k: nat, s: Stream, off: nat, i: nat): Slot
    requires k <= |ds| && i < |ds|
  {
    if i < k then Some(Field(s, off + Span(ds, i), ds[i].width)) else None
  }

  /** The slots of the row decoded from the frame that starts `off` bytes
      past the stream's position. */
  function FrameAt(ds: seq<Device>, k: nat, s: Stream, off: nat): (slots: seq<Slot>)
    requires k <= |ds|
    ensures |slots| == |ds|
  {
    seq(|ds|, i requires 0 <= i < |ds| => Expected(ds, k, s, off, i))
  }

  /** A fresh frame's slots, in closed form. */
  lemma FreshFrameRow(ds: seq<Device>, k: nat, s: Stream, data: seq<byte>)
    requires k <= |ds| && Indexed(ds)
    ensures FillTrailing(ds, k, 0, s, Nones(|ds|), data).slots == FrameAt(ds, k, s, 0)
  {
    FrameSlots(s, ds, k, 0, s, Nones(|ds|), data);
    var slots := FillTrailing(ds, k, 0, s, Nones(|ds|), data).slots;
    forall i | 0 <= i < |ds|
      ensures slots[i] == Expected(ds, k, s, 0, i)
    {
      assert 0 + Span(ds, i) == Span(ds, i);
    }
  }

  /** Slot i of the frame at offset off from a stream w bytes further on is
      slot i of the frame at offset w + off from the earlier one. */
  lemma ExpectedShift(ds: seq<Device>, k: nat, s: Stream, next: Stream, w: nat, off: nat, i: nat)
    requires k <= |ds| && i < |ds| && next.data == s.data && next.pos == Min(s.pos + w, |s.data|)
    ensures Expected(ds, k, next, off, i) == Expected(ds, k, s, w + off, i)
  {
    if i < k {
      var at := off + Span(ds, i);
      FieldShift(s, next, w, at, ds[i].width);
      assert w + at == w + off + Span(ds, i);
    }
  }

  /** Slot i of frame j - 1 counted from the next frame is slot i of frame
      j counted from the first. */
  lemma ExpectedStep(ds: seq<Device>, k: nat, s: Stream, next: Stream, j: nat, i: nat)
    requires k <= |ds| && i < |ds| && 0 < j
    requires next.data == s.data && next.pos == Min(s.pos + Span(ds, k), |s.data|)
    ensures Expected(ds, k, next, Offset(j - 1, Span(ds, k)), i) == Expected(ds, k, s, Offset(j, Span(ds, k)), i)
  {
    var w := Span(ds, k);
    ExpectedShift(ds, k, s, next, w, Offset(j - 1, w), i);
    assert Offset(j, w) == w + Offset(j - 1, w);
  }

  /** A complete-frame decoder writes nothing once the data is exhausted. */
  lemma RowsNeedData(ds: seq<Device>, sentinel: bool, s: Stream, count: nat)
    requires Indexed(ds) && Cut(ds, sentinel) > 0
    ensures var o := CompleteLoop(ds, sentinel, s, count);
      o.Finished? && (|o.rows| > 0 ==> s.pos < |s.data|)
  {
    var k := Cut(ds, sentinel);
    CompleteLoopStep(ds, sentinel, s, count);
    CompleteIff(s, ds, k, 0, s, Nones(|ds|), []);
    assert Span(ds, 0) == 0;
  }

  /** Slot i of row j, when there is one. */
  function SlotOf(rows: seq<Row>, j: nat, i: nat): Option<Slot>
  {
    if j < |rows| && i < |rows[j].slots| then Some(rows[j].slots[i]) else None
  }

  /** The first row a loop started in state t writes holds, in slot i, the
      slot wanted of t. */
  predicate FirstHolds<S>(rows: (S, nat) -> seq<Row>, want: (S, nat) -> Slot, i: nat, t: S, c: nat)
  {
    0 < |rows(t, c)| ==> SlotOf(rows(t, c), 0, i) == Some(want(t, 0))
  }

  /** Past the first row, row n of the loop started in state t is row n - 1
      of the loop started one turn on, and so is the slot wanted. */
  predicate StepHolds<S>(rows: (S, nat) -> seq<Row>, step: S -> S, want: (S, nat) -> Slot,
                         i: nat, t: S, c: nat, n: nat)
  {
    0 < n < |rows(t, c)| ==>
      n - 1 < |rows(step(t), c + 1)| &&
      SlotOf(rows(t, c), n, i) == SlotOf(rows(step(t), c + 1), n - 1, i) &&
      want(step(t), n - 1) == want(t, n)
  }

  /** Unrolling a loop that writes one row per turn: when the first row is
      right in every state and each later row is a row of the loop one turn
      on, every row's slot i is the one wanted. */
  lemma {:induction false} Unroll<S>(rows: (S, nat) -> seq<Row>, step: S -> S, want: (S, nat) -> Slot,
                                     i: nat, s: S, count: nat, j: nat)
    requires forall t: S, c: nat :: FirstHolds(rows, want, i, t, c)
    requires forall t: S, c: nat, n: nat :: StepHolds(rows, step, want, i, t, c, n)
    requires j < |rows(s, count)|
    ensures SlotOf(rows(s, count), j, i) == Some(want(s, j))
    decreases j
  {
    if j == 0 {
      assert FirstHolds(rows, want, i, s, count);
    } else {
      assert StepHolds(rows, step, want, i, s, count, j);
      Unroll(rows, step, want, i, step(s), count + 1, j - 1);
    }
  }

  /** StepHolds from the rows and the turn named outright. */
  lemma StepOf<S>(rows: (S, nat) -> seq<Row>, step: S -> S, want: (S, nat) -> Slot,
                  i: nat, t: S, c: nat, n: nat, next: S, r0: seq<Row>, r1: seq<Row>, w: Slot)
    requires step(t) == next && rows(t, c) == r0 && rows(next, c + 1) == r1
    requires 0 < n < |r0| ==>
      n - 1 < |r1| && SlotOf(r0, n, i) == SlotOf(r1, n - 1, i) && want(next, n - 1) == w && want(t, n) == w
    ensures StepHolds(rows, step, want, i, t, c, n)
  {
  }

  /** The rows a complete-frame decoder writes, none when it never ends. */
  function CompleteRows(ds: seq<Device>, sentinel: bool, s: Stream, count: nat): seq<Row>
    requires Indexed(ds)
  {
    match CompleteLoop(ds, sentinel, s, count)
    case Finished(rows) => rows
    case Endless => []
  }

  /** Slot i of the j-th whole frame past the stream's position. */
  function FrameSlot(ds: seq<Device>, sentinel: bool, s: Stream, j: nat, i: nat): Slot
    requires i < |ds|
  {
    var k := Cut(ds, sentinel);
    Expected(ds, k, s, Offset(j, Span(ds, k)), i)
  }

  function CompleteRowsFrom(ds: seq<Device>, sentinel: bool): (Stream, nat) -> seq<Row>
    requires Indexed(ds)
  {
    (t: Stream, c: nat) => CompleteRows(ds, sentinel, t, c)
  }

  function FrameSlotFrom(ds: seq<Device>, sentinel: bool, i: nat): (Stream, nat) -> Slot
    requires i < |ds|
  {
    (t: Stream, n: nat) => FrameSlot(ds, sentinel, t, n, i)
  }

  /** Slot i of the first row is device i's field in the first frame. */
  lemma CompleteFirstHolds(ds: seq<Device>, sentinel: bool, i: nat, t: Stream, c: nat)
    requires Indexed(ds) && Cut(ds, sentinel) > 0 && i < |ds|
    ensures FirstHolds(CompleteRowsFrom(ds, sentinel), FrameSlotFrom(ds, sentinel, i), i, t, c)
  {
    if 0 < |CompleteRows(ds, sentinel, t, c)| {
      CompleteLoopStep(ds, sentinel, t, c);
      CompleteFirstRow(ds, sentinel, t, c);
      assert Offset(0, Span(ds, Cut(ds, sentinel))) == 0;
    }
  }

  /** Row j's slot i is row j - 1's slot i of the loop started at the next
      frame, and the frame it comes from is one whole frame further on. */
  lemma CompleteSlotStep(ds: seq<Device>, sentinel: bool, s: Stream, count: nat, j: nat, i: nat)
    requires Indexed(ds) && Cut(ds, sentinel) > 0 && i < |ds|
    requires 0 < j < |CompleteRows(ds, sentinel, s, count)|
    ensures var next := NextFrame(ds, sentinel, s);
      j - 1 < |CompleteRows(ds, sentinel, next, count + 1)| &&
      SlotOf(CompleteRows(ds, sentinel, s, count), j, i) ==
      SlotOf(CompleteRows(ds, sentinel, next, count + 1), j - 1, i) &&
      FrameSlot(ds, sentinel, next, j - 1, i) == FrameSlot(ds, sentinel, s, j, i)
  {
    var k := Cut(ds, sentinel);
    var next := NextFrame(ds, sentinel, s);
    CompleteLoopStep(ds, sentinel, s, count);
    CompleteTailRows(ds, sentinel, s, count);
    NextStartsWhole(ds, sentinel, s, count + 1);
    assert next.pos == Min(s.pos + Span(ds, k), |s.data|);
    ExpectedStep(ds, k, s, next, j, i);
  }

  function NextFrameFrom(ds: seq<Device>, sentinel: bool): Stream -> Stream
    requires Indexed(ds)
  {
    (t: Stream) => NextFrame(ds, sentinel, t)
  }

  lemma CompleteStepHolds(ds: seq<Device>, sentinel: bool, i: nat, t: Stream, c: nat, n: nat)
    requires Indexed(ds) && Cut(ds, sentinel) > 0 && i < |ds|
    ensures StepHolds(CompleteRowsFrom(ds, sentinel), NextFrameFrom(ds, sentinel), FrameSlotFrom(ds, sentinel, i), i, t, c, n)
  {
    var next := NextFrame(ds, sentinel, t);
    var r0, r1 := CompleteRows(ds, sentinel, t, c), CompleteRows(ds, sentinel, next, c + 1);
    var w := FrameSlot(ds, sentinel, t, n, i);
    if 0 < n < |r0| {
      CompleteSlotStep(ds, sentinel, t, c, n, i);
    }
    StepOf(CompleteRowsFrom(ds, sentinel), NextFrameFrom(ds, sentinel), FrameSlotFrom(ds, sentinel, i), i, t, c, n, next, r0, r1, w);
  }

  /** Slot i of row j of a complete-frame decoder is device i's field in
      the frame that starts j * W bytes on. */
  lemma CompleteSlotAt(ds: seq<Device>, sentinel: bool, s: Stream, count: nat, j: nat, i: nat)
    requires Indexed(ds) && Cut(ds, sentinel) > 0 && i < |ds|
    requires j < |CompleteRows(ds, sentinel, s, count)|
    ensures SlotOf(CompleteRows(ds, sentinel, s, count), j, i) == Some(FrameSlot(ds, sentinel, s, j, i))
  {
    var rows, step, want := CompleteRowsFrom(ds, sentinel), NextFrameFrom(ds, sentinel), FrameSlotFrom(ds, sentinel, i);
    forall t: Stream, c: nat
      ensures FirstHolds(rows, want, i, t, c)
    {
      CompleteFirstHolds(ds, sentinel, i, t, c);
    }
    forall t: Stream, c: nat, n: nat
      ensures StepHolds(rows, step, want, i, t, c, n)
    {
      CompleteStepHolds(ds, sentinel, i, t, c, n);
    }
    Unroll(rows, step, want, i, s, count, j);
  }

  lemma TailIndex<T>(xs: seq<T>, x: T, ys: seq<T>)
    requires xs == [x] + ys
    ensures forall j :: 1 <= j < |xs| ==> xs[j] == ys[j - 1]
  {
  }

  /** Where the frame after the first begins. */
  function NextFrame(ds: seq<Device>, sentinel: bool, s: Stream): Stream
    requires Indexed(ds)
  {
    var r := FillComplete(ds, Cut(ds, sentinel), 0, s, Nones(|ds|), []);
    if r.Some? then r.value.next else s
  }

  /** Past its first row, a complete-frame decoder's rows are those of the
      same loop started at the next frame. */
  lemma CompleteTailRows(ds: seq<Device>, sentinel: bool, s: Stream, count: nat)
    requires Indexed(ds) && Cut(ds, sentinel) > 0
    ensures var o := CompleteLoop(ds, sentinel, s, count);
      var rest := CompleteLoop(ds, sentinel, NextFrame(ds, sentinel, s), count + 1);
      o.Finished? && rest.Finished? &&
      (|o.rows| > 0 ==> |o.rows| == |rest.rows| + 1) &&
      (forall j :: 1 <= j < |o.rows| ==> o.rows[j].slots == rest.rows[j - 1].slots)
  {
    var k := Cut(ds, sentinel);
    CompleteLoopStep(ds, sentinel, s, count);
    var r := FillComplete(ds, k, 0, s, Nones(|ds|), []);
    if r.Some? {
      var o := CompleteLoop(ds, sentinel, s, count);
      TailIndex(o.rows, Row(count + 1, r.value.slots), CompleteLoop(ds, sentinel, r.value.next, count + 1).rows);
    } else {
      CompleteEndless(ds, sentinel, s, count + 1);
    }
  }

  /** When the loop started at the next frame writes a row, that frame
      starts one whole frame on. */
  lemma NextStartsWhole(ds: seq<Device>, sentinel: bool, s: Stream, count: nat)
    requires Indexed(ds) && Cut(ds, sentinel) > 0
    ensures var next := NextFrame(ds, sentinel, s);
      var rest := CompleteLoop(ds, sentinel, next, count);
      rest.Finished? &&
      (|rest.rows| > 0 ==> next.data == s.data && next.pos == s.pos + Span(ds, Cut(ds, sentinel)))
  {
    var k := Cut(ds, sentinel);
    var r := FillComplete(ds, k, 0, s, Nones(|ds|), []);
    if r.Some? {
      var next := r.value.next;
      assert NextFrame(ds, sentinel, s) == next;
      RowsNeedData(ds, sentinel, next, count);
      CompleteFrameNext(ds, k, s);
      assert next.pos == Min(s.pos + Span(ds, k), |s.data|);
    } else {
      CompleteLoopStep(ds, sentinel, s, count);
    }
  }


  /** The first row of a complete-frame decoder is the first frame. */
  lemma CompleteFirstRow(ds: seq<Device>, sentinel: bool, s: Stream, count: nat)
    requires Indexed(ds) && Cut(ds, sentinel) > 0
    requires CompleteLoop(ds, sentinel, s, count).Finished?
    requires |CompleteLoop(ds, sentinel, s, count).rows| > 0
    ensures CompleteLoop(ds, sentinel, s, count).rows[0].slots == FrameAt(ds, Cut(ds, sentinel), s, 0)
  {
    var k := Cut(ds, sentinel);
    CompleteLoopStep(ds, sentinel, s, count);
    CompleteIsTrailing(ds, k, 0, s, Nones(|ds|), []);
    FreshFrameRow(ds, k, s, []);
  }

  /** Every row of a complete-frame decoder, in closed form: row j is the
      frame that starts j whole frames past the stream's position. */
  lemma CompleteRowsContent(ds: seq<Device>, sentinel: bool, s: Stream, count: nat)
    requires Indexed(ds) && Cut(ds, sentinel) > 0
    ensures var k := Cut(ds, sentinel); var o := CompleteLoop(ds, sentinel, s, count);
      o.Finished? &&
      forall j :: 0 <= j < |o.rows| ==> o.rows[j].slots == FrameAt(ds, k, s, Offset(j, Span(ds, k)))
  {
    CompleteLoopStep(ds, sentinel, s, count);
    var rows := CompleteRows(ds, sentinel, s, count);
    var k := Cut(ds, sentinel);
    forall j | 0 <= j < |rows|
      ensures rows[j].slots == FrameAt(ds, k, s, Offset(j, Span(ds, k)))
    {
      forall i | 0 <= i < |ds|
        ensures rows[j].slots[i] == FrameAt(ds, k, s, Offset(j, Span(ds, k)))[i]
      {
        CompleteSlotAt(ds, sentinel, s, count, j, i);
      }
    }
  }

  /** The rows a trailing-row decoder writes, none when it never ends. */
  function TrailingRows(ds: seq<Device>, sentinel: bool, s: Stream, data: seq<byte>, count: nat): seq<Row>
    requires Indexed(ds)
  {
    match TrailingLoop(ds, sentinel, s, data, count)
    case Finished(rows) => rows
    case Endless => []
  }

  /** The first frame of a trailing-row loop. */
  function TrailingFrame(ds: seq<Device>, sentinel: bool, s: Stream, data: seq<byte>): Fill
    requires Indexed(ds)
  {
    FillTrailing(ds, Cut(ds, sentinel), 0, s, Nones(|ds|), data)
  }

  /** One turn of a trailing-row loop that has data: the frame is written
      ahead of the rest, whatever its reads returned. */
  lemma TrailingLoopStep(ds: seq<Device>, sentinel: bool, s: Stream, data: seq<byte>, count: nat)
    requires Indexed(ds) && Cut(ds, sentinel) > 0 && |data| > 0
    ensures var f := TrailingFrame(ds, sentinel, s, data);
      var o := TrailingLoop(ds, sentinel, s, data, count);
      o.Finished? && TrailingLoop(ds, sentinel, f.next, f.last, count + 1).Finished? &&
      o.rows == [Row(count + 1, f.slots)] + TrailingLoop(ds, sentinel, f.next, f.last, count + 1).rows
  {
    var k := Cut(ds, sentinel);
    var f := TrailingFrame(ds, sentinel, s, data);
    TrailingEndless(ds, sentinel, s, data, count);
    TrailingEndless(ds, sentinel, f.next, f.last, count + 1);
    FrameProgress(ds, k, s, Nones(|ds|), data);
  }

  lemma TrailingFirstSlot(ds: seq<Device>, sentinel: bool, s: Stream, data: seq<byte>, count: nat, i: nat)
    requires Indexed(ds) && Cut(ds, sentinel) > 0 && i < |ds|
    requires 0 < |TrailingRows(ds, sentinel, s, data, count)|
    ensures SlotOf(TrailingRows(ds, sentinel, s, data, count), 0, i) == Some(FrameSlot(ds, sentinel, s, 0, i))
  {
    var k := Cut(ds, sentinel);
    TrailingLoopStep(ds, sentinel, s, data, count);
    FreshFrameRow(ds, k, s, data);
    assert Offset(0, Span(ds, k)) == 0;
  }

  /** Row j's slot i is row j - 1's slot i of the loop started at the next
      frame, which starts one whole frame further on, or at the end. */
  lemma TrailingSlotStep(ds: seq<Device>, sentinel: bool, s: Stream, data: seq<byte>, count: nat, j: nat, i: nat)
    requires Indexed(ds) && Cut(ds, sentinel) > 0 && i < |ds|
    requires 0 < j < |TrailingRows(ds, sentinel, s, data, count)|
    ensures var f := TrailingFrame(ds, sentinel, s, data);
      j - 1 < |TrailingRows(ds, sentinel, f.next, f.last, count + 1)| &&
      SlotOf(TrailingRows(ds, sentinel, s, data, count), j, i) ==
      SlotOf(TrailingRows(ds, sentinel, f.next, f.last, count + 1), j - 1, i) &&
      FrameSlot(ds, sentinel, f.next, j - 1, i) == FrameSlot(ds, sentinel, s, j, i)
  {
    TrailingTail(ds, sentinel, s, data, count, j);
    TrailingShift(ds, sentinel, s, data, j, i);
  }

  lemma TrailingTail(ds: seq<Device>, sentinel: bool, s: Stream, data: seq<byte>, count: nat, j: nat)
    requires Indexed(ds) && Cut(ds, sentinel) > 0
    requires 0 < j < |TrailingRows(ds, sentinel, s, data, count)|
    ensures var f := TrailingFrame(ds, sentinel, s, data);
      var rest := TrailingRows(ds, sentinel, f.next, f.last, count + 1);
      j - 1 < |rest| && TrailingRows(ds, sentinel, s, data, count)[j] == rest[j - 1]
  {
    TrailingLoopStep(ds, sentinel, s, data, count);
  }

  lemma TrailingShift(ds: seq<Device>, sentinel: bool, s: Stream, data: seq<byte>, j: nat, i: nat)
    requires Indexed(ds) && Cut(ds, sentinel) > 0 && i < |ds| && 0 < j
    ensures FrameSlot(ds, sentinel, TrailingFrame(ds, sentinel, s, data).next, j - 1, i) == FrameSlot(ds, sentinel, s, j, i)
  {
    var k := Cut(ds, sentinel);
    var f := TrailingFrame(ds, sentinel, s, data);
    FrameEndAt(s, ds, k, 0, s, Nones(|ds|), data);
    assert Span(ds, 0) == 0;
    ExpectedStep(ds, k, s, f.next, j, i);
  }

  /** The state a trailing-row loop carries between turns: the stream and
      the bytes of the last read. */
  type Carry = (Stream, seq<byte>)

  function RowsFrom(ds: seq<Device>, sentinel: bool): (Carry, nat) -> seq<Row>
    requires Indexed(ds)
  {
    (t: Carry, c: nat) => TrailingRows(ds, sentinel, t.0, t.1, c)
  }

  function Turn(ds: seq<Device>, sentinel: bool): Carry -> Carry
    requires Indexed(ds)
  {
    (t: Carry) => (TrailingFrame(ds, sentinel, t.0, t.1).next, TrailingFrame(ds, sentinel, t.0, t.1).last)
  }

  function WantFrom(ds: seq<Device>, sentinel: bool, i: nat): (Carry, nat) -> Slot
    requires i < |ds|
  {
    (t: Carry, n: nat) => FrameSlot(ds, sentinel, t.0, n, i)
  }

  lemma TrailingFirstHolds(ds: seq<Device>, sentinel: bool, i: nat, t: Carry, c: nat)
    requires Indexed(ds) && Cut(ds, sentinel) > 0 && i < |ds|
    ensures FirstHolds(RowsFrom(ds, sentinel), WantFrom(ds, sentinel, i), i, t, c)
  {
    if 0 < |TrailingRows(ds, sentinel, t.0, t.1, c)| {
      TrailingFirstSlot(ds, sentinel, t.0, t.1, c, i);
    }
  }

  lemma TrailingStepHolds(ds: seq<Device>, sentinel: bool, i: nat, t: Carry, c: nat, n: nat)
    requires Indexed(ds) && Cut(ds, sentinel) > 0 && i < |ds|
    ensures StepHolds(RowsFrom(ds, sentinel), Turn(ds, sentinel), WantFrom(ds, sentinel, i), i, t, c, n)
  {
    var rows, want := RowsFrom(ds, sentinel), WantFrom(ds, sentinel, i);
    var f := TrailingFrame(ds, sentinel, t.0, t.1);
    assert Turn(ds, sentinel)(t) == (f.next, f.last);
    assert rows(t, c) == TrailingRows(ds, sentinel, t.0, t.1, c);
    if 0 < n < |TrailingRows(ds, sentinel, t.0, t.1, c)| {
      assert rows((f.next, f.last), c + 1) == TrailingRows(ds, sentinel, f.next, f.last, c + 1);
      assert want((f.next, f.last), n - 1) == FrameSlot(ds, sentinel, f.next, n - 1, i);
      assert want(t, n) == FrameSlot(ds, sentinel, t.0, n, i);
      TrailingSlotStep(ds, sentinel, t.0, t.1, c, n, i);
    }
  }

  /** Slot i of row j of a trailing-row decoder is device i's field in the
      frame that starts j * W bytes on; a field at or past the end of the
      data decodes from no bytes. */
  lemma TrailingSlotAt(ds: seq<Device>, sentinel: bool, s: Stream, data: seq<byte>, count: nat, j: nat, i: nat)
    requires Indexed(ds) && Cut(ds, sentinel) > 0 && i < |ds|
    requires j < |TrailingRows(ds, sentinel, s, data, count)|
    ensures SlotOf(TrailingRows(ds, sentinel, s, data, count), j, i) == Some(FrameSlot(ds, sentinel, s, j, i))
  {
    var rows, step, want := RowsFrom(ds, sentinel), Turn(ds, sentinel), WantFrom(ds, sentinel, i);
    forall t: Carry, c: nat
      ensures FirstHolds(rows, want, i, t, c)
    {
      TrailingFirstHolds(ds, sentinel, i, t, c);
    }
    forall t: Carry, c: nat, n: nat
      ensures StepHolds(rows, step, want, i, t, c, n)
    {
      TrailingStepHolds(ds, sentinel, i, t, c, n);
    }
    Unroll(rows, step, want, i, (s, data), count, j);
  }

  /** Every row of a trailing-row decoder, in closed form: row j is the
      frame that starts j whole frames past the stream's position, fields at
      or past the end decoding from no bytes. */
  lemma TrailingRowsContent(ds: seq<Device>, sentinel: bool, s: Stream, data: seq<byte>, count: nat)
    requires Indexed(ds) && Cut(ds, sentinel) > 0
    ensures var k := Cut(ds, sentinel); var o := TrailingLoop(ds, sentinel, s, data, count);
      o.Finished? &&
      forall j :: 0 <= j < |o.rows| ==> o.rows[j].slots == FrameAt(ds, k, s, Offset(j, Span(ds, k)))
  {
    TrailingEndless(ds, sentinel, s, data, count);
    var rows := TrailingRows(ds, sentinel, s, data, count);
    var k := Cut(ds, sentinel);
    forall j | 0 <= j < |rows|
      ensures rows[j].slots == FrameAt(ds, k, s, Offset(j, Span(ds, k)))
    {
      forall i | 0 <= i < |ds|
        ensures rows[j].slots[i] == FrameAt(ds, k, s, Offset(j, Span(ds, k)))[i]
      {
        TrailingSlotAt(ds, sentinel, s, data, count, j, i);
      }
    }
  }

  /** One trailing-row frame: its last read returns bytes exactly when the
      last field starts before the end, and it moves one frame width on, or
      to the end. */
  lemma TrailingFrameStep(ds: seq<Device>, sentinel: bool, s: Stream, data: seq<byte>)
    requires Indexed(ds) && Positive(ds) && Cut(ds, sentinel) > 0
    ensures var k := Cut(ds, sentinel); var f := TrailingFrame(ds, sentinel, s, data);
      (|f.last| > 0 <==> Remaining(s) > Span(ds, k - 1)) &&
      f.next.data == s.data && f.next.pos == Min(s.pos + Span(ds, k), |s.data|)
  {
    var k := Cut(ds, sentinel);
    assert Span(ds, 0) == 0;
    FrameEnd(s, ds, k, 0, s, Nones(|ds|), data);
  }

  /** A trailing-row decoder that starts with data writes one row more than
      the complete-frame decoder on the same bytes: every frame whose last
      field starts before the end, and then the frame whose last read came
      back empty. */
  lemma {:induction false} TrailingRowCount(ds: seq<Device>, sentinel: bool, s: Stream, data: seq<byte>, count: nat)
    requires Indexed(ds) && Positive(ds) && Cut(ds, sentinel) > 0
    ensures var k := Cut(ds, sentinel);
      Span(ds, k - 1) < Span(ds, k) &&
      var o := TrailingLoop(ds, sentinel, s, data, count);
      o.Finished? &&
      |o.rows| == if |data| == 0 then 0 else RowCount(Remaining(s), Span(ds, k), Span(ds, k - 1)) + 1
    decreases Remaining(s)
  {
    var k := Cut(ds, sentinel);
    SpanMonotone(ds, k - 1, k);
    TrailingEndless(ds, sentinel, s, data, count);
    if |data| > 0 {
      var f := TrailingFrame(ds, sentinel, s, data);
      TrailingLoopStep(ds, sentinel, s, data, count);
      TrailingFrameStep(ds, sentinel, s, data);
      if |f.last| > 0 {
        TrailingRowCount(ds, sentinel, f.next, f.last, count + 1);
      }
    }
  }

  /** A field that starts at or past the end of the data is an empty read,
      and its decoded value is the conversion of 0. */
  lemma PastEndDecodesZero(ds: seq<Device>, k: nat, s: Stream, off: nat, i: nat)
    requires i < k <= |ds| && s.pos + off + Span(ds, i) >= |s.data|
    ensures var frame := FrameAt(ds, k, s, off);
      frame[i] == Some([]) && Values(ds, frame)[i] == Some(Apply(ds[i].conversion, 0))
  {
  }

  /** A written CSV line: the counter, then the decoded values. */
  datatype Line = Line(index: nat, values: seq<Option<real>>)

  /** The lines a decoder writes for its rows. */
  function Lines(ds: seq<Device>, rows: seq<Row>): (ls: seq<Line>)
    requires forall j :: 0 <= j < |rows| ==> |rows[j].slots| == |ds|
    ensures |ls| == |rows|
  {
    seq(|rows|, j requires 0 <= j < |rows| => Line(rows[j].index, Values(ds, rows[j].slots)))
  }

  /** Where the reads of a complete-frame frame stop: just after the first
      empty read, or after field k. */
  function StopAt(ds: seq<Device>, k: nat, i: nat, cur: Stream): (e: Stream)
    requires i <= k <= |ds|
    ensures e.data == cur.data
    decreases k - i
  {
    if i == k then cur
    else if |Read(cur, ds[i].width).0| == 0 then Read(cur, ds[i].width).1
    else StopAt(ds, k, i + 1, Read(cur, ds[i].width).1)
  }

  /** Where the stream is when a complete-frame loop ends: after the empty
      read that abandoned its last frame. */
  function CompleteStop(ds: seq<Device>, sentinel: bool, s: Stream): (e: Stream)
    requires Indexed(ds)
    ensures e.data == s.data
    decreases Remaining(s)
  {
    var k := Cut(ds, sentinel);
    match FillComplete(ds, k, 0, s, Nones(|ds|), [])
    case None => StopAt(ds, k, 0, s)
    case Some(f) => if f.next.pos == s.pos then s else CompleteStop(ds, sentinel, f.next)
  }

  /** With positive widths an abandoned frame was abandoned at the end of the
      data: a read of at least one byte comes back empty only there. */
  lemma {:induction false} StopAtEnd(ds: seq<Device>, k: nat, i: nat, cur: Stream, slots: seq<Slot>, last: seq<byte>)
    requires i <= k <= |ds| && Indexed(ds) && Positive(ds) && |slots| == |ds|
    requires FillComplete(ds, k, i, cur, slots, last).None?
    ensures StopAt(ds, k, i, cur).pos == |cur.data|
    decreases k - i
  {
    var f := ReadInto(ds, i, cur, slots);
    if |f.last| > 0 {
      StopAtEnd(ds, k, i + 1, f.next, f.slots, f.last);
    }
  }

  /** A complete-frame loop that ends leaves the stream at the end of the
      data. */
  lemma {:induction false} CompleteStopsAtEnd(ds: seq<Device>, sentinel: bool, s: Stream)
    requires Indexed(ds) && Positive(ds) && Cut(ds, sentinel) > 0
    ensures CompleteStop(ds, sentinel, s).pos == |s.data|
    decreases Remaining(s)
  {
    var k := Cut(ds, sentinel);
    var r := FillComplete(ds, k, 0, s, Nones(|ds|), []);
    if r.None? {
      StopAtEnd(ds, k, 0, s, Nones(|ds|), []);
    } else {
      CompleteFrameLast(ds, k, s);
      FrameProgress(ds, k, s, Nones(|ds|), []);
      CompleteIsTrailing(ds, k, 0, s, Nones(|ds|), []);
      CompleteStopsAtEnd(ds, sentinel, r.value.next);
    }
  }
}
