/** process.py: the decoder of the first logger's .benji files. A file is a
    run of fixed 110-byte frames with no header; every field is a big-endian
    integer at a fixed place in the frame. The `while data` loop reads the
    frame's 4-byte timestamp, then every other field in turn (the `if data
    is None` tests never fire: read returns bytes), and writes one CSV line
    of 51 columns whose order differs from the read order. The brake-load
    field is read and thrown away. After the loop the decoder reports the
    sample rate. */
module Legacy {
  import opened Common
  import opened Bytes
  import opened Streams
  import opened Text
  import Transfer

  /** How a column's integer becomes the number written. */
  datatype Kind =
    | Millis     // a millisecond count, written in seconds
    | Raw        // the integer itself
    | Pressure   // brakePressure
    | Steer      // steering of transfer.py
    | Shock      // linearPotentiometer
    | Current    // 1.25 mA steps
    | Battery    // 1.25 mV steps, written in volts
    | FrGauge    // fr_sg
    | FlGauge    // fl_sg
    | RlGauge    // rl_sg
    | Celsius    // mlx90614
    | Degrees    // 1e-7 degree steps
    | Speed      // mm/s, written in m/s

  function Value(kind: Kind, v: int): real
  {
    match kind
    case Millis => v as real / 1000.0
    case Raw => v as real
    case Pressure => Transfer.BrakePressure(v)
    case Steer => Transfer.SteeringRaw(v)
    case Shock => Transfer.LinearPotentiometer(v)
    case Current => v as real * 1.25
    case Battery => v as real * 1.25 / 1000.0
    case FrGauge => Transfer.FrSg(v)
    case FlGauge => Transfer.FlSg(v)
    case RlGauge => Transfer.RlSg(v)
    case Celsius => Transfer.Mlx90614(v)
    case Degrees => v as real / 10000000.0
    case Speed => v as real / 1000.0
  }

  /** One read of a frame: how many bytes and whether they are signed. */
  datatype Field = Field(width: nat, signed: bool)

  /** How many reads make a frame. */
  const ReadCount: nat := 52

  /** How many columns a CSV line has. */
  const ColumnCount: nat := 51

  /** The frame's reads, in file order:
        0        timestamp (ms), 4 bytes
        1-7      front and rear brake pressure, steering, shocks FL FR RR RL
        8        current, signed
        9        battery
        10-15    accel x y z, gyro x y z, 4 bytes signed
        16-19    strain gauges FR FL RL RR
        20-31    wheel ambient, rotor and speed: FL, FR, RR, RL
        32-34    brake fluid, throttle load, brake load (thrown away)
        35       drs, 1 byte
        36-38    GPS longitude, latitude, speed, 4 bytes
        39       GPS fix, 1 byte
        40       test number, 1 byte
        41-51    wheel codes FL FR RL RR, gauge codes FL FR RL RR, IMU code,
                 GPS 0 and GPS 1 codes, 1 byte each
      Every other read is 2 bytes and unsigned. */
  function ReadAt(r: nat): Field
    requires r < ReadCount
  {
    if r == 0 then Field(4, false)
    else if r <= 7 then Field(2, false)
    else if r == 8 then Field(2, true)
    else if r == 9 then Field(2, false)
    else if r <= 15 then Field(4, true)
    else if r <= 34 then Field(2, false)
    else if r == 35 then Field(1, false)
    else if r <= 38 then Field(4, false)
    else Field(1, false)
  }

  /** The read that is thrown away: the brake load. */
  const BrakeLoad: nat := 34

  /** One CSV column: the read it takes its integer from, and how that
      integer is written. */
  datatype Column = Column(read: nat, kind: Kind)

  /** The CSV columns in the order the header and every line list them. */
  function ColumnAt(j: nat): Column
    requires j < ColumnCount
  {
    match j
    case 0 => Column(0, Millis)
    case 1 => Column(40, Raw)
    case 2 => Column(1, Pressure)
    case 3 => Column(2, Pressure)
    case 4 => Column(3, Steer)
    case 5 => Column(4, Shock)
    case 6 => Column(5, Shock)
    case 7 => Column(6, Shock)
    case 8 => Column(7, Shock)
    case 9 => Column(8, Current)
    case 10 => Column(9, Battery)
    case 11 => Column(10, Raw)
    case 12 => Column(11, Raw)
    case 13 => Column(12, Raw)
    case 14 => Column(13, Raw)
    case 15 => Column(14, Raw)
    case 16 => Column(15, Raw)
    case 17 => Column(49, Raw)
    case 18 => Column(17, FlGauge)
    case 19 => Column(45, Raw)
    case 20 => Column(16, FrGauge)
    case 21 => Column(46, Raw)
    case 22 => Column(19, Raw)
    case 23 => Column(48, Raw)
    case 24 => Column(18, RlGauge)
    case 25 => Column(47, Raw)
    case 26 => Column(20, Celsius)
    case 27 => Column(21, Celsius)
    case 28 => Column(22, Raw)
    case 29 => Column(41, Raw)
    case 30 => Column(23, Celsius)
    case 31 => Column(24, Celsius)
    case 32 => Column(25, Raw)
    case 33 => Column(42, Raw)
    case 34 => Column(26, Celsius)
    case 35 => Column(27, Celsius)
    case 36 => Column(28, Raw)
    case 37 => Column(44, Raw)
    case 38 => Column(29, Celsius)
    case 39 => Column(30, Celsius)
    case 40 => Column(31, Raw)
    case 41 => Column(43, Raw)
    case 42 => Column(35, Raw)
    case 43 => Column(32, Raw)
    case 44 => Column(33, Raw)
    case 45 => Column(39, Raw)
    case 46 => Column(50, Raw)
    case 47 => Column(51, Raw)
    case 48 => Column(36, Degrees)
    case 49 => Column(37, Degrees)
    case _ => Column(38, Speed)
  }

  /** The header title of column j. */
  function Title(j: nat): string
    requires j < ColumnCount
  {
    match j
    case 0 => "time (s)"
    case 1 => "test number"
    case 2 => "f brake pressure (bar)"
    case 3 => "r brake pressure (bar)"
    case 4 => "steering (degrees)"
    case 5 => "fl shock position (mm)"
    case 6 => "fr shock position (mm)"
    case 7 => "rr shock position (mm)"
    case 8 => "rl shock position (mm)"
    case 9 => "current draw (mA)"
    case 10 => "battery (V)"
    case 11 => "longitudinal accel (mG)"
    case 12 => "lateral accel (mG)"
    case 13 => "gravity (mG)"
    case 14 => "xgyro (mdps)"
    case 15 => "ygyro (mdps)"
    case 16 => "zgyro (mdps)"
    case 17 => "imu dtc"
    case 18 => "flsg (lbs)"
    case 19 => "flsg dtc"
    case 20 => "frsg (lbs)"
    case 21 => "frsg dtc"
    case 22 => "rrsg (adc)"
    case 23 => "rrsg dtc"
    case 24 => "rlsg (lbs)"
    case 25 => "rlsg dtc"
    case 26 => "fl wheel ambient temp (C)"
    case 27 => "fl rotor temp (C)"
    case 28 => "fl wheel speed (rpm)"
    case 29 => "fl wheel dtc"
    case 30 => "fr wheel ambient temp (C)"
    case 31 => "fr rotor temp (C)"
    case 32 => "fr wheel speed (rpm)"
    case 33 => "fr wheel dtc"
    case 34 => "rr wheel ambient temp (C)"
    case 35 => "rr rotor temp (C)"
    case 36 => "rr wheel speed (rpm)"
    case 37 => "rr wheel dtc"
    case 38 => "rl wheel ambient temp (C)"
    case 39 => "rl rotor temp (C)"
    case 40 => "rl wheel speed (rpm)"
    case 41 => "rl wheel dtc"
    case 42 => "drs status"
    case 43 => "brake fluid temp (C)"
    case 44 => "throttle load (adc)"
    case 45 => "gps fix"
    case 46 => "gps fix 0 dtc"
    case 47 => "gps fix 1 dtc"
    case 48 => "gps longitude"
    case 49 => "gps latitude"
    case _ => "gps speed (m/s)"
  }

  /** The column a read feeds, or None for the brake load. */
  function ColumnOf(r: nat): Option<nat>
    requires r < ReadCount
  {
    match r
    case 0 => Some(0)
    case 1 => Some(2)
    case 2 => Some(3)
    case 3 => Some(4)
    case 4 => Some(5)
    case 5 => Some(6)
    case 6 => Some(7)
    case 7 => Some(8)
    case 8 => Some(9)
    case 9 => Some(10)
    case 10 => Some(11)
    case 11 => Some(12)
    case 12 => Some(13)
    case 13 => Some(14)
    case 14 => Some(15)
    case 15 => Some(16)
    case 16 => Some(20)
    case 17 => Some(18)
    case 18 => Some(24)
    case 19 => Some(22)
    case 20 => Some(26)
    case 21 => Some(27)
    case 22 => Some(28)
    case 23 => Some(30)
    case 24 => Some(31)
    case 25 => Some(32)
    case 26 => Some(34)
    case 27 => Some(35)
    case 28 => Some(36)
    case 29 => Some(38)
    case 30 => Some(39)
    case 31 => Some(40)
    case 32 => Some(43)
    case 33 => Some(44)
    case 34 => None
    case 35 => Some(42)
    case 36 => Some(48)
    case 37 => Some(49)
    case 38 => Some(50)
    case 39 => Some(45)
    case 40 => Some(1)
    case 41 => Some(29)
    case 42 => Some(33)
    case 43 => Some(41)
    case 44 => Some(37)
    case 45 => Some(19)
    case 46 => Some(21)
    case 47 => Some(25)
    case 48 => Some(23)
    case 49 => Some(17)
    case 50 => Some(46)
    case _ => Some(47)
  }

  /** Each column takes its own read, never the brake load, and ColumnOf
      maps that read back to the column. */
  lemma ColumnsToReads()
    ensures forall j :: 0 <= j < ColumnCount ==>
      ColumnAt(j).read < ReadCount && ColumnAt(j).read != BrakeLoad && ColumnOf(ColumnAt(j).read) == Some(j)
  {
    forall j | 0 <= j < ColumnCount
      ensures ColumnAt(j).read < ReadCount && ColumnAt(j).read != BrakeLoad && ColumnOf(ColumnAt(j).read) == Some(j)
    {
      ColumnToRead(j);
    }
  }

  /** Column j's read, and back. */
  lemma ColumnToRead(j: nat)
    requires j < ColumnCount
    ensures ColumnAt(j).read < ReadCount && ColumnAt(j).read != BrakeLoad && ColumnOf(ColumnAt(j).read) == Some(j)
  {
  }

  /** Every read but the brake load lands in the column ColumnOf names, and
      the brake load in none. */
  lemma ReadsToColumns()
    ensures forall r :: 0 <= r < ReadCount && r != BrakeLoad ==>
      ColumnOf(r).Some? && ColumnOf(r).value < ColumnCount && ColumnAt(ColumnOf(r).value).read == r
    ensures ColumnOf(BrakeLoad) == None
  {
    forall r | 0 <= r < ReadCount && r != BrakeLoad
      ensures ColumnOf(r).Some? && ColumnOf(r).value < ColumnCount && ColumnAt(ColumnOf(r).value).read == r
    {
    }
  }

  /** No two columns take the same read. */
  lemma ColumnsDistinct(i: nat, j: nat)
    requires i < ColumnCount && j < ColumnCount && i != j
    ensures ColumnAt(i).read != ColumnAt(j).read
  {
    ColumnsToReads();
  }

  /** The frame's reads as a list. */
  function Reads(): (fs: seq<Field>)
    ensures |fs| == ReadCount && forall r :: 0 <= r < ReadCount ==> fs[r] == ReadAt(r)
  {
    seq(ReadCount, r requires 0 <= r < ReadCount => ReadAt(r))
  }

  /** The reads the loop body makes: all but the timestamp. */
  function Others(): (fs: seq<Field>)
    ensures |fs| == ReadCount - 1 && forall i :: 0 <= i < ReadCount - 1 ==> fs[i] == ReadAt(i + 1)
  {
    Reads()[1..]
  }

  /** How many bytes the reads fs take together. */
  function Span(fs: seq<Field>): nat
  {
    if |fs| == 0 then 0 else fs[0].width + Span(fs[1..])
  }

  /** One more read takes its width more. */
  lemma {:induction false} SpanAppend(fs: seq<Field>, f: Field)
    ensures Span(fs + [f]) == Span(fs) + f.width
    decreases |fs|
  {
    if |fs| > 0 {
      assert (fs + [f])[1..] == fs[1..] + [f];
      SpanAppend(fs[1..], f);
    }
  }

  /** Where read r starts within its frame: the 4-byte timestamp, nine
      2-byte fields, six 4-byte IMU axes, nineteen 2-byte fields ending with
      the brake load, the 1-byte drs, three 4-byte GPS fields and thirteen
      1-byte fields. */
  function Offset(r: nat): nat
    requires r <= ReadCount
  {
    if r == 0 then 0
    else if r <= 10 then 4 + 2 * (r - 1)
    else if r <= 16 then 22 + 4 * (r - 10)
    else if r <= 35 then 46 + 2 * (r - 16)
    else if r == 36 then 85
    else if r <= 39 then 85 + 4 * (r - 36)
    else 97 + (r - 39)
  }

  /** Each read starts where the one before it ends. */
  lemma OffsetStep(r: nat)
    requires r < ReadCount
    ensures Offset(r + 1) == Offset(r) + ReadAt(r).width
  {
  }

  /** The offsets are the widths of the reads before each read added up. */
  lemma {:induction false} OffsetIsSpan(r: nat)
    requires r <= ReadCount
    ensures Offset(r) == Span(Reads()[..r])
  {
    if r > 0 {
      OffsetIsSpan(r - 1);
      assert Reads()[..r] == Reads()[..r - 1] + [ReadAt(r - 1)];
      SpanAppend(Reads()[..r - 1], ReadAt(r - 1));
      OffsetStep(r - 1);
    }
  }

  /** After the timestamp, the first i other reads end where read i + 1
      starts. */
  lemma OthersSpan(i: nat)
    requires i < ReadCount
    ensures 4 + Span(Others()[..i]) == Offset(i + 1)
  {
    OffsetIsSpan(i + 1);
    assert Reads()[..i + 1][1..] == Others()[..i];
  }

  /** A frame is 110 bytes, 106 of them after the timestamp, and the brake
      load is its bytes 82 and 83. */
  lemma FrameLayout()
    ensures Offset(ReadCount) == 110 && Span(Reads()) == 110 && Span(Others()) == 106
    ensures Offset(BrakeLoad) == 82 && ReadAt(BrakeLoad).width == 2
  {
    OffsetIsSpan(ReadCount);
    assert Reads()[..ReadCount] == Reads();
    OthersSpan(ReadCount - 1);
    assert Others()[..ReadCount - 1] == Others();
  }

  /** The titles, in column order. */
  function Titles(): (ts: seq<string>)
    ensures |ts| == ColumnCount && forall j :: 0 <= j < ColumnCount ==> ts[j] == Title(j)
  {
    seq(ColumnCount, j requires 0 <= j < ColumnCount => Title(j))
  }

  /** The header line's text: the titles joined by commas. */
  function Header(): string
  {
    Join(Titles(), ',')
  }

  /** What a read of w bytes at byte a of the file gets: up to w bytes,
      fewer at the end of the file and none past it. */
  function Clip(file: seq<byte>, a: nat, w: nat): seq<byte>
  {
    file[Min(a, |file|)..Min(a + w, |file|)]
  }

  /** The file opened and moved to byte a, or to its end when a lies past
      it. */
  function StreamAt(file: seq<byte>, a: nat): (s: Stream)
    ensures s.data == file && s.pos == Min(a, |file|)
  {
    Cursor(file, Min(a, |file|))
  }

  /** Reading w bytes at byte a gets Clip(file, a, w) and moves to byte
      a + w. */
  lemma ReadClip(file: seq<byte>, a: nat, w: nat)
    ensures Read(StreamAt(file, a), w) == (Clip(file, a, w), StreamAt(file, a + w))
  {
  }

  /** The reads fs made in order: the bytes each returns, and the stream
      after the last. */
  function ReadFields(fs: seq<Field>, s: Stream): (v: (seq<seq<byte>>, Stream))
    ensures |v.0| == |fs| && v.1.data == s.data && s.pos <= v.1.pos
  {
    if |fs| == 0 then ([], s)
    else
      var (bytes, next) := Read(s, fs[0].width);
      var (rest, end) := ReadFields(fs[1..], next);
      ([bytes] + rest, end)
  }

  /** Read i of fs, made from byte a on, gets the bytes after the widths of
      the reads before it. */
  lemma {:induction false} ReadFieldsAt(fs: seq<Field>, file: seq<byte>, a: nat, i: nat)
    requires i < |fs|
    ensures ReadFields(fs, StreamAt(file, a)).0[i] == Clip(file, a + Span(fs[..i]), fs[i].width)
    decreases i
  {
    ReadClip(file, a, fs[0].width);
    if i > 0 {
      ReadFieldsAt(fs[1..], file, a + fs[0].width, i - 1);
      assert fs[..i][1..] == fs[1..][..i - 1];
    }
  }

  /** The reads fs, made from byte a on, leave the stream at byte
      a + Span(fs), or at the end. */
  lemma {:induction false} ReadFieldsEnd(fs: seq<Field>, file: seq<byte>, a: nat)
    ensures ReadFields(fs, StreamAt(file, a)).1 == StreamAt(file, a + Span(fs))
    decreases |fs|
  {
    if |fs| > 0 {
      ReadClip(file, a, fs[0].width);
      ReadFieldsEnd(fs[1..], file, a + fs[0].width);
    }
  }

  /** The integers of a frame's reads: big-endian, signed where the read
      is. */
  function Ints(chunks: seq<seq<byte>>): (ints: seq<int>)
    requires |chunks| == ReadCount
    ensures |ints| == ReadCount
    ensures forall r :: 0 <= r < ReadCount ==> ints[r] == FromBytes(chunks[r], Big, ReadAt(r).signed)
  {
    seq(ReadCount, r requires 0 <= r < ReadCount => FromBytes(chunks[r], Big, ReadAt(r).signed))
  }

  /** The CSV line of a frame's integers: column j is the integer of its
      read, written the column's way. */
  function Row(ints: seq<int>): (row: seq<real>)
    requires |ints| == ReadCount
    ensures |row| == ColumnCount
    ensures forall j :: 0 <= j < ColumnCount ==> row[j] == Value(ColumnAt(j).kind, ints[ColumnAt(j).read])
  {
    ColumnsToReads();
    seq(ColumnCount, j requires 0 <= j < ColumnCount => Value(ColumnAt(j).kind, ints[ColumnAt(j).read]))
  }

  /** The `while data` loop: data is the timestamp just read and last the
      timestamp of the latest frame. When data is not empty the other reads
      follow and the next timestamp is read. It returns the bytes of every
      frame's reads, each of which becomes one CSV line, and the final
      last. */
  function Loop(data: seq<byte>, s: Stream, last: int): (r: (seq<seq<seq<byte>>>, int))
    ensures forall i :: 0 <= i < |r.0| ==> |r.0[i]| == ReadCount
    decreases Remaining(s) + |data|
  {
    if |data| == 0 then ([], last)
    else
      var time := FromBytes(data, Big, false);
      var (chunks, next) := ReadFields(Others(), s);
      var (stamp, after) := Read(next, 4);
      var (frames, end) := Loop(stamp, after, time);
      ([[data] + chunks] + frames, end)
  }

  /** The bytes read r of frame k gets: those at the frame's start plus
      the read's offset, clipped to the file. */
  function Chunk(file: seq<byte>, k: nat, r: nat): seq<byte>
    requires r < ReadCount
  {
    Clip(file, 110 * k + Offset(r), ReadAt(r).width)
  }

  /** The bytes of every read of frame k. */
  function FrameChunks(file: seq<byte>, k: nat): (cs: seq<seq<byte>>)
    ensures |cs| == ReadCount && forall r :: 0 <= r < ReadCount ==> cs[r] == Chunk(file, k, r)
  {
    seq(ReadCount, r requires 0 <= r < ReadCount => Chunk(file, k, r))
  }

  /** The integer of read r of frame k. */
  function FieldAt(file: seq<byte>, k: nat, r: nat): int
    requires r < ReadCount
  {
    FromBytes(Chunk(file, k, r), Big, ReadAt(r).signed)
  }

  /** The timestamp of frame k, in milliseconds. */
  function Stamp(file: seq<byte>, k: nat): int
  {
    FieldAt(file, k, 0)
  }

  /** How many frames start at or after frame k: one per 110 bytes, a last
      partial frame included. */
  function FramesFrom(size: nat, k: nat): nat
  {
    if 110 * k >= size then 0 else (size - 110 * k + 109) / 110
  }

  /** Read i after frame k's timestamp gets the chunk of read i + 1. */
  lemma FrameRead(file: seq<byte>, k: nat, i: nat)
    requires i < ReadCount - 1
    ensures ReadFields(Others(), StreamAt(file, 110 * k + 4)).0[i] == Chunk(file, k, i + 1)
  {
    ReadFieldsAt(Others(), file, 110 * k + 4, i);
    OthersSpan(i);
  }

  /** The reads after frame k's timestamp get the frame's other chunks and
      leave the stream at the next frame. */
  lemma FrameReads(file: seq<byte>, k: nat)
    ensures var v := ReadFields(Others(), StreamAt(file, 110 * k + 4));
      v.1 == StreamAt(file, 110 * (k + 1)) &&
      forall i :: 0 <= i < ReadCount - 1 ==> v.0[i] == Chunk(file, k, i + 1)
  {
    FrameLayout();
    ReadFieldsEnd(Others(), file, 110 * k + 4);
    var chunks := ReadFields(Others(), StreamAt(file, 110 * k + 4)).0;
    forall i | 0 <= i < ReadCount - 1
      ensures chunks[i] == Chunk(file, k, i + 1)
    {
      FrameRead(file, k, i);
    }
  }

  /** The timestamp's bytes and the other chunks make frame k's chunks. */
  lemma FrameOf(file: seq<byte>, k: nat, chunks: seq<seq<byte>>)
    requires |chunks| == ReadCount - 1
    requires forall i :: 0 <= i < ReadCount - 1 ==> chunks[i] == Chunk(file, k, i + 1)
    ensures [Clip(file, 110 * k, 4)] + chunks == FrameChunks(file, k)
  {
    var cs := [Clip(file, 110 * k, 4)] + chunks;
    forall r | 1 <= r < ReadCount
      ensures cs[r] == Chunk(file, k, r)
    {
      assert cs[r] == chunks[r - 1];
    }
  }

  /** The loop at frame k: when the frame has bytes, its line, then the
      loop at frame k + 1 with last its timestamp. */
  lemma LoopStep(file: seq<byte>, k: nat, last: int)
    ensures var r := LoopFrom(file, k, last);
      var tail := LoopFrom(file, k + 1, Stamp(file, k));
      r == if 110 * k < |file| then ([FrameChunks(file, k)] + tail.0, tail.1) else ([], last)
  {
    if 110 * k < |file| {
      var data := Clip(file, 110 * k, 4);
      FrameReads(file, k);
      var (chunks, next) := ReadFields(Others(), StreamAt(file, 110 * k + 4));
      FrameOf(file, k, chunks);
      ReadClip(file, 110 * (k + 1), 4);
    }
  }

  /** The frames from k on are frame k and those from k + 1 on. */
  lemma FramesStep(size: nat, k: nat)
    requires 110 * k < size
    ensures FramesFrom(size, k) == 1 + FramesFrom(size, k + 1)
  {
  }

  /** The loop entered at frame k: frame k's timestamp bytes already
      read, the stream after them, and last the latest timestamp. */
  function LoopFrom(file: seq<byte>, k: nat, last: int): (seq<seq<seq<byte>>>, int)
  {
    Loop(Clip(file, 110 * k, 4), StreamAt(file, 110 * k + 4), last)
  }

  /** The loop entered at frame k writes one line per remaining frame. */
  lemma {:induction false} LoopCount(file: seq<byte>, k: nat, last: int)
    ensures |LoopFrom(file, k, last).0| == FramesFrom(|file|, k)
    decreases |file| - 110 * k
  {
    LoopStep(file, k, last);
    if 110 * k < |file| {
      FramesStep(|file|, k);
      LoopCount(file, k + 1, Stamp(file, k));
    }
  }

  /** The loop entered at frame k, past its first frame, is the loop
      entered at frame k + 1. */
  lemma LoopTail(file: seq<byte>, k: nat, last: int, j: nat)
    requires k < j && j - k < |LoopFrom(file, k, last).0|
    ensures 110 * k < |file|
    ensures var tail := LoopFrom(file, k + 1, Stamp(file, k));
      j - (k + 1) < |tail.0| && LoopFrom(file, k, last).0[j - k] == tail.0[j - (k + 1)]
  {
    LoopStep(file, k, last);
  }

  /** Frame j - k of the loop entered at frame k is frame j. */
  lemma {:induction false} LoopFrame(file: seq<byte>, k: nat, last: int, j: nat)
    requires k <= j && j - k < |LoopFrom(file, k, last).0|
    ensures LoopFrom(file, k, last).0[j - k] == FrameChunks(file, j)
    decreases j - k
  {
    if j == k {
      LoopStep(file, k, last);
    } else {
      LoopTail(file, k, last, j);
      LoopFrame(file, k + 1, Stamp(file, k), j);
    }
  }

  /** The loop entered at frame k ends with last the timestamp of the
      file's final frame, or unchanged when no frame starts at or after k. */
  lemma {:induction false} LoopLast(file: seq<byte>, k: nat, last: int)
    ensures LoopFrom(file, k, last).1 ==
      if 110 * k >= |file| then last else Stamp(file, (|file| + 109) / 110 - 1)
    decreases |file| - 110 * k
  {
    LoopStep(file, k, last);
    if 110 * k < |file| {
      LoopLast(file, k + 1, Stamp(file, k));
      if 110 * (k + 1) >= |file| {
        assert (|file| + 109) / 110 - 1 == k;
      }
    }
  }

  /** A line does not depend on the brake load: any value in its place
      gives the same line. */
  lemma BrakeLoadIgnored(ints: seq<int>, x: int)
    requires |ints| == ReadCount
    ensures Row(ints[BrakeLoad := x]) == Row(ints)
  {
    ColumnsToReads();
    var a := Row(ints[BrakeLoad := x]);
    var b := Row(ints);
    forall j | 0 <= j < ColumnCount
      ensures a[j] == b[j]
    {
      assert ints[BrakeLoad := x][ColumnAt(j).read] == ints[ColumnAt(j).read];
    }
  }

  /** What the decoder leaves behind after the header line: the CSV lines;
      the rate it prints after them, or the exception that print raises; and
      the sample rate that print is meant to report. */
  datatype Log = Log(lines: seq<seq<real>>, printed: Result<real>, rate: Result<real>)

  /** The rate print as written, for n lines between timestamps init and
      last: 1000 / ((last - init) / count), where count starts at 1 and
      grows by one per line. */
  function RateAsWritten(n: nat, init: int, last: int): (r: Result<real>)
    ensures r.Failure? <==> last == init
    ensures r.Failure? ==> r.error == ZeroDivisionError
    ensures r.Success? ==> r.value * (last - init) as real == 1000.0 * (n + 1) as real
  {
    var count := 1 + n;
    if last == init then Failure(ZeroDivisionError)
    else Success(1000.0 / ((last - init) as real / count as real))
  }

  /** The sample rate in Hz: the n - 1 intervals between n line timestamps
      over the milliseconds from init to last. No time between them raises
      ZeroDivisionError, as the print does. */
  function Rate(n: nat, init: int, last: int): (r: Result<real>)
    ensures r.Failure? <==> last == init
    ensures r.Failure? ==> r.error == ZeroDivisionError
    ensures r.Success? ==> r.value * (last - init) as real == 1000.0 * (n - 1) as real
  {
    if last == init then Failure(ZeroDivisionError)
    else Success(1000.0 * (n - 1) as real / (last - init) as real)
  }

  /** A common nonzero factor cancels. */
  lemma DivCancel(a: real, m: real, e: real)
    requires m != 0.0 && e != 0.0
    ensures a * m / (m * e) == a / e
  {
  }

  /** Two positive integers have a positive product. */
  lemma PositiveProduct(x: int, y: int)
    requires x > 0 && y > 0
    ensures x * y > 0
  {
  }

  /** Converting a product to a real multiplies the converted factors. */
  lemma ProductAsReal(x: int, y: int)
    ensures (x * y) as real == x as real * y as real
  {
  }

  /** n - 1 intervals of d milliseconds each are 1000 / d per second. */
  lemma SpanCancel(n: nat, d: int)
    requires n >= 2 && d > 0
    ensures 1000.0 * (n - 1) as real / ((n - 1) * d) as real == 1000.0 / d as real
  {
    ProductAsReal(n - 1, d);
    DivCancel(1000.0, (n - 1) as real, d as real);
  }

  /** n lines d milliseconds apart report 1000 / d Hz. */
  lemma SteadyRate(n: nat, t0: int, d: int)
    requires n >= 2 && d > 0
    ensures Rate(n, t0, t0 + (n - 1) * d) == Success(1000.0 / d as real)
  {
    PositiveProduct(n - 1, d);
    SpanCancel(n, d);
    assert t0 + (n - 1) * d - t0 == (n - 1) * d;
  }

  /** The print as written counts one line too many twice over: three
      lines 10 ms apart, 100 Hz, print 200 Hz. */
  lemma RateOvercounts()
    ensures Rate(3, 0, 20) == Success(100.0)
    ensures RateAsWritten(3, 0, 20) == Success(200.0)
  {
    SteadyRate(3, 0, 10);
  }

  /** The CSV lines of the frames the loop read. */
  function Lines(frames: seq<seq<seq<byte>>>): (lines: seq<seq<real>>)
    requires forall i :: 0 <= i < |frames| ==> |frames[i]| == ReadCount
    ensures |lines| == |frames|
    ensures forall k :: 0 <= k < |frames| ==> |lines[k]| == ColumnCount
  {
    seq(|frames|, i requires 0 <= i < |frames| => Row(Ints(frames[i])))
  }

  /** What the decoder reads: the bytes of every frame's reads, the first
      timestamp and the last. */
  datatype Scan = Scan(frames: seq<seq<seq<byte>>>, init: int, last: int)

  /** The decoder's first read and its loop: one frame per 110 bytes, a
      last partial frame included; init the timestamp of frame 0 and last
      that of the final frame, or init when there is none. */
  function ScanOf(file: seq<byte>): (r: Scan)
    ensures |r.frames| == (|file| + 109) / 110
    ensures forall i :: 0 <= i < |r.frames| ==> |r.frames[i]| == ReadCount
    ensures r.init == Stamp(file, 0)
    ensures r.last == if |file| == 0 then r.init else Stamp(file, (|file| + 109) / 110 - 1)
  {
    ReadClip(file, 0, 4);
    var opening := Read(Open(file), 4);
    var init := FromBytes(opening.0, Big, false);
    LoopCount(file, 0, init);
    LoopLast(file, 0, init);
    var run := Loop(opening.0, opening.1, init);
    Scan(run.0, init, run.1)
  }

  /** Frame k of the scan is the bytes at frame k's offsets. */
  lemma ScanFrame(file: seq<byte>, k: nat)
    requires k < (|file| + 109) / 110
    ensures ScanOf(file).frames[k] == FrameChunks(file, k)
  {
    ReadClip(file, 0, 4);
    LoopCount(file, 0, Stamp(file, 0));
    LoopFrame(file, 0, Stamp(file, 0), k);
  }

  /** What parseBenjiFile leaves for one file after the Header line: one
      line of 51 columns per 110-byte frame (a last partial frame
      included); the rate the print shows, RateAsWritten; and the corrected
      Rate. Both raise ZeroDivisionError, and they raise together. */
  function Decode(file: seq<byte>): (log: Log)
    ensures |log.lines| == (|file| + 109) / 110
    ensures forall k :: 0 <= k < |log.lines| ==> |log.lines[k]| == ColumnCount
    ensures log.printed.Failure? <==> log.rate.Failure?
    ensures log.printed.Failure? ==> log.printed.error == ZeroDivisionError
    ensures log.rate.Failure? ==> log.rate.error == ZeroDivisionError
  {
    var scan := ScanOf(file);
    Log(Lines(scan.frames),
        RateAsWritten(|scan.frames|, scan.init, scan.last),
        Rate(|scan.frames|, scan.init, scan.last))
  }

  /** The printed rate is RateAsWritten over the line count, and the
      corrected rate is Rate over it, both from the first frame's timestamp
      to the last frame's. They fail exactly when the file holds at most one
      frame or the two timestamps agree; an empty file fails too, as the
      print divides 0 by 1. */
  lemma DecodeRate(file: seq<byte>)
    ensures |file| > 0 ==>
      var n := (|file| + 109) / 110;
      Decode(file).printed == RateAsWritten(n, Stamp(file, 0), Stamp(file, n - 1)) &&
      Decode(file).rate == Rate(n, Stamp(file, 0), Stamp(file, n - 1))
    ensures Decode(file).printed.Failure? <==>
      |file| <= 110 || Stamp(file, (|file| + 109) / 110 - 1) == Stamp(file, 0)
  {
    var scan := ScanOf(file);
    assert Decode(file).printed == RateAsWritten(|scan.frames|, scan.init, scan.last);
    assert Decode(file).rate == Rate(|scan.frames|, scan.init, scan.last);
  }

  /** Line k of the CSV is frame k's reads converted: column j holds read
      ColumnAt(j).read of frame k, whose bytes start at byte
      110 * k + Offset(read), written the column's way. */
  lemma DecodeLines(file: seq<byte>, k: nat, j: nat)
    requires k < (|file| + 109) / 110 && j < ColumnCount
    ensures ColumnAt(j).read < ReadCount
    ensures Decode(file).lines[k][j] == Value(ColumnAt(j).kind, FieldAt(file, k, ColumnAt(j).read))
  {
    ColumnToRead(j);
    ScanFrame(file, k);
  }
}
