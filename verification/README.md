# Benji telemetry decoders, modelled in Dafny

The repository turns the binary logs of a Formula SAE car's data logger into
CSV and MoTeC files. This project models its decoders and proves properties
about them.

**The `.benji2` decoders.** A `.benji2` file holds:
- a little-endian length prefix;
- a comma-separated header of channel names, where a channel of n bytes appears as n numbered tokens;
- one or two terminator bytes;
- fixed-width frames of channel readings.

The model covers seven copies of `parseBenji2File`. The copies differ in:
- the terminator count and the empty-file guard;
- whether NULs are stripped from the header;
- how channel widths are derived;
- where the calibration table comes from;
- how the first channel is peeked;
- whether reading stops at a `CH_COUNT` channel;
- how the frame loop ends.

`Benji2.Revision` names each of these choices. Every source file is one
`Rev` constant in its own module:

| module | source file |
|---|---|
| ProcessBenji2 | `process_benji2.py` |
| MultiBenji2 | `SDM26/process_multi_benji2.py` |
| Benji2Csv | `process_benji2_csv.py` |
| Benji2Motec | `process_benji2_motec.py` |
| RootCsv | `SDM26_benji2_to_csv.py` |
| Sdm26Csv | `SDM26/SDM26_benji2_to_csv.py` |
| Sdm26Motec | `SDM26/benji2_to_motec.py` |

**Shared modules.** These model the common machinery:
- `filter_duplicate_headers`, the header resolver (module Header);
- `device_data`, `create_devices` and `configure_devices`, the device classes (module Devices);
- the inline calibration tables (module Registry);
- the transfer functions of `transfer.py` and `SDM26/transfer.py` (module Transfer);
- Python's `int.from_bytes`, `str.strip`/`split`/`join` and buffered-file reads (modules Bytes, Text, Streams).

**Frame loops.** Module Frames models the two loop shapes:
- a complete-frame loop, which drops a frame at the first empty read;
- a trailing-row loop (`while data:`), which writes the frame whose last read came back empty.

Both are proved to write, row by row, the frame that starts j frame widths
into the data.

**Other decoders.** Two more decoders are modelled:
- the first logger's `.benji` decoder in `process.py`, with its fixed 110-byte frame (module Legacy);
- the GPS speed outlier filter of `velocity-estimation.py` (module Gps).

**Errors and outcomes.** A decoder's result is `Benji2.Parse`:
- `Skipped`;
- `Raised(e)` with the Python exception;
- `Hangs`, for a loop that never returns;
- `Written(value)`.

**Numbers and text.**
- Python floats are modelled as exact reals.
- Python integers are unbounded, as here.
- Whether a byte string is valid UTF-8 is a parameter `utf8: Utf8`, a decoder chosen by the caller.

## Model

| member | source | states |
|---|---|---|
| Bytes.FromBytes | SDM26/devices.py:23 | `int.from_bytes` in either byte order and signedness; the result lies in the field's range, and an empty input gives 0 |
| Bytes.LittleIsReversedBig | SDM26/devices.py:23 | a little-endian value is the big-endian value of the reversed bytes |
| Bytes.FromBytesOfToBytes | SDM26/devices.py:23 | decoding a value written with `to_bytes` gives the value back, for every in-range value, order and signedness |
| Bytes.ToBytesOfFromBytes | SDM26/devices.py:23 | encoding a decoded field gives the same bytes back: the two are inverse |
| Text.TrimStart | SDM26/process_multi_benji2.py:182 | `lstrip`: the result is a suffix of the input, it does not start with a dropped character, and everything removed is dropped characters |
| Text.TrimEnd | SDM26/process_multi_benji2.py:183 | `rstrip`: the same at the end |
| Text.TrimOfTrimmed | SDM26/process_multi_benji2.py:177-184 | stripping a string with nothing to strip leaves it unchanged |
| Text.Split | SDM26/process_multi_benji2.py:177 | `str.split(sep)` gives at least one part, and no part holds the separator |
| Text.JoinSplit | SDM26/process_multi_benji2.py:177 | joining the split parts restores the text |
| Text.SplitJoin | SDM26/process_multi_benji2.py:193 | splitting separator-free parts joined by the separator restores the parts |
| Streams.Read | SDM26/process_multi_benji2.py:48-63 | `f.read(n)`: at most n bytes from the offset, all remaining bytes for -1, empty exactly at end of file or for n = 0 |
| Streams.ReadAny | process_benji2.py:42-50 | a read size below -1 raises ValueError; otherwise it is Read |
| Streams.SeekBack | SDM26/process_multi_benji2.py:136-137 | `f.seek(-k, SEEK_CUR)` raises exactly when it would pass byte 0, and otherwise moves back k |
| Header.BaseOf | SDM26/process_multi_benji2.py:177-184 | a base name has no comma and no surrounding whitespace |
| Header.Resolve | SDM26/process_multi_benji2.py:178-191 | each distinct base name appears once, and the count list runs parallel to it |
| Header.TallySum | SDM26/process_multi_benji2.py:185-189 | the counts add up to the number of header tokens |
| Header.FirstOccurrenceOrder | SDM26/process_multi_benji2.py:185-187 | the tally, and so the resolver's names, come out in order of first occurrence |
| Header.FilterDuplicateHeaders | SDM26/process_multi_benji2.py:160-193 | the joined names split and strip back to exactly the resolved names, and the count list is the resolved counts |
| Header.NamesSurviveJoin | SDM26/process_multi_benji2.py:193 | stripped comma-free names survive the join, split and strip the decoder performs |
| Header.FilterDuplicateHeadersKeepNul | process_benji2_motec.py:59-70 | the copy that keeps NULs returns the resolved names as its list, and its dictionary maps each of them to its count and holds no other key |
| Devices.ApplyMonotone | SDM26/devices.py:24-26 | a conversion with positive slope preserves the order of raw readings, and one with negative slope reverses it |
| Devices.NewDevice | SDM26/devices.py:11-20 | the constructor's defaults: factor 1.0 and unsigned |
| Devices.GetData | SDM26/devices.py:22-26 | an empty read decodes as the conversion of 0 |
| Devices.GetDataOfEncoded | SDM26/devices.py:22-26 | decoding a full-width field gives back the reading it encoded, converted |
| Devices.GetDataDefault | SDM26/devices.py:11-26 | with the defaults, `getData` is the plain unsigned reading |
| Devices.CreateDevices | SDM26/devices.py:29-30 | device i has stripped name i, column i and width `data_sizes[i]`; a shorter size list raises IndexError |
| Devices.CreateDevicesRoundTrip | SDM26/devices.py:29-30 | with enough sizes it succeeds, and rebuilding from its names and widths gives the same list |
| Devices.MakeDevices | SDM26/process_multi_benji2.py:61-63 | the inline constructor loop: name, column and width per index, no strip, IndexError on a short size list |
| Devices.MakeDevicesRoundTrip | SDM26/process_multi_benji2.py:59-63 | given the stripped names, the inline loop builds exactly what `create_devices` builds; with enough sizes its list carries the names as given and the first sizes, and rebuilds from them |
| Devices.Configure | SDM26/devices.py:38-78 | only the conversion and the sign flag change, and signed is never reset |
| Devices.ConfigurePreserves | SDM26/devices.py:33-78 | names, columns, widths, byte orders, length and order stay the same |
| Devices.ConfigureIdempotent | SDM26/devices.py:33-78 | configuring twice is configuring once |
| Devices.ConfigureKeepsIndexed | SDM26/devices.py:33-78 | each device stays in its own slot |
| Registry.Sdm26Signed | SDM26/devices.py:42-66 | exactly CURRENT, BATTERY and the six IMU channels become signed; CH_COUNT and the empty name are left alone |
| Registry.OtherTablesSigned | SDM26/process_multi_benji2.py:66-114 | the same holds for the other inline tables, and the MoTeC table signs only CURRENT and BATTERY |
| Registry.Sdm26Scalings | SDM26/devices.py:42-66 | microsecond timestamps, 1.25 mA, 1.25 mV, 0.122 mg and 17.5 mdps steps |
| Registry.Sdm26Temperatures | SDM26/devices.py:64-66 | the wheel thermometers use mlx90614 |
| Registry.Sdm26Directions | SDM26/devices.py:67-76 | shocks read lower as the count rises, and steering reads higher |
| Registry.ProcessBenji2StrainGauges | process_benji2.py:60-106 | the strain gauge lambdas are fr_sg, fl_sg and rl_sg; RR_SG stays raw |
| Registry.RootCsvScalings | SDM26_benji2_to_csv.py:62-100 | gyros in 65.6 LSB/dps, and steering as 0-5 V over 345 degrees |
| Registry.TablesAgree | process_benji2_csv.py:73-85 | every table agrees on the power channels, and the older tables read millisecond timestamps |
| Registry.MultiWheelAndImu | SDM26/process_multi_benji2.py:66-114 | wheel thermometers through mlx90614; IMU readings unscaled |
| Transfer.BrakePressureShape | transfer.py:4-8 | brake pressure is strictly increasing, 0 bar at count 0 and 50 bar at full scale |
| Transfer.LinearPotentiometerShape | transfer.py:10-11 | shock travel is strictly increasing and reads zero at count 198 |
| Transfer.Mlx90614Shape | transfer.py:13-14 | temperature is strictly increasing and reads absolute zero at count 0 |
| Transfer.SteeringShape | SDM26/transfer.py:16-17 | the SDM26 steering map is strictly increasing and centred on 2304 |
| Transfer.StrainGaugeShape | SDM26/transfer.py:19-26 | fr_sg is strictly decreasing and zero at 63608; fl_sg and rl_sg are strictly increasing and zero at 1432 and 931 |
| Frames.CutIsFirstMarker | SDM26/process_multi_benji2.py:141-143 | with the CH_COUNT stop a frame reads the devices before the first CH_COUNT, and otherwise all of them |
| Frames.CompleteIsTrailing | SDM26/SDM26_benji2_to_csv.py:54-65 | a frame the complete-frame decoder keeps is the frame the trailing-row decoder reads |
| Frames.CompleteIffLastStarts | SDM26/SDM26_benji2_to_csv.py:54-65 | a frame is complete exactly when its last field starts before the end of the data |
| Frames.CompleteEndless | SDM26/SDM26_benji2_to_csv.py:52-74 | a complete-frame loop runs forever exactly when its frames read nothing |
| Frames.TrailingEndless | SDM26/process_multi_benji2.py:138-155 | a trailing-row loop runs forever exactly when it starts with data and its frames read nothing |
| Frames.CompleteRowCount | SDM26/SDM26_benji2_to_csv.py:52-74 | the complete-frame loop writes one row per frame whose last field starts before the end of the data |
| Frames.CompleteRowsContent | SDM26/SDM26_benji2_to_csv.py:52-74 | row j holds, in slot i, device i's field of the frame j frame widths on |
| Frames.TrailingRowsContent | SDM26/process_multi_benji2.py:138-155 | the same for the trailing-row loop; fields past the end decode from no bytes |
| Frames.TrailingRowCount | SDM26/process_multi_benji2.py:138-155 | the trailing-row loop writes one row more than the complete-frame loop on the same bytes |
| Frames.PastEndDecodesZero | SDM26/process_multi_benji2.py:145-149 | a field at or past the end of the data is an empty read and decodes as the conversion of 0 |
| Frames.CompleteStopsAtEnd | SDM26/SDM26_benji2_to_csv.py:52-74 | a complete-frame loop that ends leaves the stream at the end of the data |
| Benji2.ChannelsBuild | SDM26/process_multi_benji2.py:59-63 | building channels from stripped names and positive counts always succeeds |
| Benji2.PrefixBytes | SDM26/process_multi_benji2.py:48-49 | the length prefix is the file's first four bytes, or all of a shorter file |
| Benji2.BeginOfFile | SDM26/process_multi_benji2.py:126-137 | the peek's seek fails exactly when SeekFails says; otherwise the loop starts at LoopStart and its guard tests GuardBytes bytes |
| Benji2.RunOutcome | SDM26/SDM26_benji2_to_csv.py:23-33 | skipped exactly when the guard holds; ValueError exactly when the announced length is below -1; UnicodeDecodeError exactly when the header does not decode |
| Benji2.RunBody | SDM26/process_multi_benji2.py:38-155 | a run hangs only at a leading CH_COUNT; a written run's channels are the ones its header describes |
| Benji2.RunReturns | SDM26/SDM26_benji2_to_csv.py:52-74 | without the CH_COUNT stop a run always returns |
| Benji2.RunHangs | SDM26/process_multi_benji2.py:138-155 | once the header decodes, a run hangs exactly when the seek succeeds, the frames stop at a leading CH_COUNT and the guard lets the loop start |
| Benji2.LoopLines | SDM26/process_multi_benji2.py:138-155 | any loop whose frames read something ends, with the expected number of rows, each the frame at its offset |
| Benji2.RunRows | SDM26/process_multi_benji2.py:38-155 | a written run's rows in closed form |
| Writers.Csv | SDM26/process_multi_benji2.py:122-155 | the header line joins the resolved names; the lines are the rows, counted from 1 |
| Writers.CsvRows | SDM26/process_multi_benji2.py:122-155 | a written CSV in terms of the file: FileLines of the header's channels |
| Writers.TrailingLast | SDM26/process_multi_benji2.py:138-155 | the extra row of a trailing-row loop reads its last field past the end of the file, and that field holds the conversion of 0 |
| Writers.Samples | SDM26/benji2_to_motec.py:84-96 | a MoTeC sample is a row's values without a counter |
| Writers.WholeRows | process_benji2_csv.py:96-108 | without the CH_COUNT stop every value of every row is present |
| EarlierLogger.Start | process_benji2.py:117-128 | the peek reads the first channel and seeks back 4 bytes; the seek fails when it would pass byte 0 |
| EarlierLogger.Outcome | process_benji2.py:42-51 | never skipped; ValueError exactly when the prefix is below 1; UnicodeDecodeError exactly when the header does not decode; OSError exactly when the seek would pass byte 0 |
| EarlierLogger.TrailingHangs | process_benji2.py:129-134 | with the trailing-row loop, the run hangs exactly when the first name is CH_COUNT and the peek read something |
| EarlierLogger.TrailingRows | process_benji2.py:129-146 | a written CSV is TrailingOf the header's channels |
| EarlierLogger.CompleteRows | process_benji2_csv.py:89-108 | a written run is CompleteOf the header's channels |
| ProcessBenji2.Decode | process_benji2.py:35-146 | never skips; ValueError exactly when the prefix is 0; otherwise only UnicodeDecodeError or OSError |
| ProcessBenji2.Outcome | process_benji2.py:42-51 | the exceptions, each as an if-and-only-if |
| ProcessBenji2.LoopsForever | process_benji2.py:129-134 | the decoder hangs exactly when the first name is CH_COUNT and the peek read something |
| ProcessBenji2.Rows | process_benji2.py:113-146 | the header line and the trailing-row lines of the header's channels |
| ProcessBenji2.LastRow | process_benji2.py:129-146 | the last line is the extra frame, with the conversion of 0 in its last field |
| MultiBenji2.Decode | SDM26/process_multi_benji2.py:38-155 | never skips; ValueError exactly when the prefix is 0; otherwise only UnicodeDecodeError or OSError |
| MultiBenji2.Outcome | SDM26/process_multi_benji2.py:48-63 | the exceptions, each as an if-and-only-if |
| MultiBenji2.LoopsForever | SDM26/process_multi_benji2.py:138-143 | the decoder hangs exactly when the first name is CH_COUNT and the peek read something |
| MultiBenji2.Rows | SDM26/process_multi_benji2.py:122-155 | the header line and the trailing-row lines of the header's channels |
| MultiBenji2.LastRow | SDM26/process_multi_benji2.py:138-155 | the last line is the extra frame, with the conversion of 0 in its last field |
| MultiBenji2.SplitOnce | SDM26/process_multi_benji2.py:201 | `split(sep, 1)`: one part without the separator, or the text before the first separator and everything after it |
| MultiBenji2.ExtractNumber | SDM26/process_multi_benji2.py:198-202 | what follows `data24_`, or the whole stem |
| MultiBenji2.NumberRoundTrip | SDM26/process_multi_benji2.py:198-202 | the number extracted from `data24_` + n is n, separators included |
| Benji2Csv.Decode | process_benji2_csv.py:52-111 | never skips and always returns; ValueError exactly when the prefix is 0; the count is the number of data rows |
| Benji2Csv.Rows | process_benji2_csv.py:87-108 | a header row of "Index" and the names; the data rows are the complete frames, numbered 1 to count |
| Benji2Csv.Complete | process_benji2_csv.py:96-108 | every data row holds one value per column |
| Benji2Motec.TableIsPrefix | process_benji2_motec.py:17-40 | the channel table takes sample positions 0 to 19 in order |
| Benji2Motec.Project | process_benji2_motec.py:133-181 | nothing written without samples; IndexError exactly when a sample is shorter than the table; otherwise each sample's first 20 values |
| Benji2Motec.Parsed | process_benji2_motec.py:73-130 | never skips and always returns; ValueError exactly when the prefix is 0; every sample has one value per channel |
| Benji2Motec.Convert | process_benji2_motec.py:133-181 | IndexError exactly when there are samples and fewer than 20 channels; an empty sample list writes nothing |
| Benji2Motec.ShortIffFewChannels | process_benji2_motec.py:177-181 | uniform samples are too short exactly when the channel count is below 20 |
| Benji2Motec.Outcome | process_benji2_motec.py:76-112 | the exceptions, each as an if-and-only-if |
| Benji2Motec.Rows | process_benji2_motec.py:108-130 | the samples are the complete frames' values, and the channels are the header's |
| RootCsv.SecondPass | SDM26_benji2_to_csv.py:141-170 | the second block raises AttributeError on its first row, and otherwise adds nothing |
| RootCsv.FinishInert | SDM26_benji2_to_csv.py:141-170 | after a written first block, the second block's guard tests an empty read |
| RootCsv.SecondBlockInert | SDM26_benji2_to_csv.py:141-170 | the decoder's output is the first block's |
| RootCsv.Start | SDM26_benji2_to_csv.py:105-112 | the loop starts after the terminator, or the first channel's width before the end |
| RootCsv.Outcome | SDM26_benji2_to_csv.py:47-112 | never skips and never raises ValueError; UnicodeDecodeError exactly when the header does not decode; OSError exactly when the file is shorter than the first channel |
| RootCsv.LoopsForever | SDM26_benji2_to_csv.py:114-137 | the decoder hangs exactly when the first name is CH_COUNT |
| RootCsv.Rows | SDM26_benji2_to_csv.py:103-137 | the header line and the complete frames |
| Sdm26Csv.Decode | SDM26/SDM26_benji2_to_csv.py:20-74 | skips exactly a prefix of at most 1; only UnicodeDecodeError is raised |
| Sdm26Csv.LoopsForever | SDM26/SDM26_benji2_to_csv.py:52-74 | the decoder hangs exactly when the first name is CH_COUNT |
| Sdm26Csv.Start | SDM26/SDM26_benji2_to_csv.py:43 | the loop starts right after the terminator byte |
| Sdm26Csv.Rows | SDM26/SDM26_benji2_to_csv.py:41-74 | the header line and the complete frames from the byte after the terminator |
| Sdm26Motec.RoundHalfEven | SDM26/benji2_to_motec.py:101 | Python's `round`: within a half of x, and even on a tie |
| Sdm26Motec.RoundUnique | SDM26/benji2_to_motec.py:101 | those two properties determine the result |
| Sdm26Motec.Rate | SDM26/benji2_to_motec.py:98-105 | 500 Hz with fewer than two samples; otherwise the rounded inverse of the first step; IndexError and ZeroDivisionError exactly when they occur |
| Sdm26Motec.RateOfStep | SDM26/benji2_to_motec.py:98-105 | samples 0.002 s apart report 500 Hz |
| Sdm26Motec.RecordingOf | SDM26/benji2_to_motec.py:98-108 | the recording carries the samples, the channels and their rate |
| Sdm26Motec.Decode | SDM26/benji2_to_motec.py:38-108 | never skips and always returns; UnicodeDecodeError exactly when the header does not decode; otherwise only a zero time step raises |
| Sdm26Motec.Start | SDM26/benji2_to_motec.py:73-82 | the loop starts after the terminator byte, and its guard tests the header bytes |
| Sdm26Motec.Rows | SDM26/benji2_to_motec.py:82-96 | the samples are the whole frames' values, and the channels are the header's |
| Legacy.ColumnsToReads | process.py:39-317 | each CSV column takes its own read and never the brake load |
| Legacy.ColumnToRead | process.py:39-317 | column j's read, and the column that read maps back to |
| Legacy.ReadsToColumns | process.py:39-317 | every read but the brake load lands in one column; the brake load lands in none |
| Legacy.ColumnsDistinct | process.py:305-317 | no two columns take the same read |
| Legacy.OffsetIsSpan | process.py:34-302 | each read starts where the widths of the reads before it end |
| Legacy.FrameLayout | process.py:34-302 | a frame is 110 bytes, and the brake load is its bytes 82-83 |
| Legacy.ReadFieldsAt | process.py:39-302 | the reads, made in order, get the bytes at their offsets, clipped to the file |
| Legacy.LoopCount | process.py:34-317 | the loop writes one line per 110-byte frame, a last partial frame included |
| Legacy.LoopFrame | process.py:34-317 | line j comes from the bytes of frame j |
| Legacy.LoopLast | process.py:35-37 | `last` ends as the final frame's timestamp |
| Legacy.BrakeLoadIgnored | process.py:210-211 | a line does not depend on the brake load |
| Legacy.Decode | process.py:13-320 | (file size + 109) / 110 lines of 51 values; the printed rate and the corrected rate fail together, with ZeroDivisionError |
| Legacy.DecodeRate | process.py:30-37 | the printed rate is RateAsWritten over the line count, from the first frame's timestamp to the last, and the corrected rate is Rate over the same; they fail exactly when there is at most one frame or the two timestamps agree |
| Legacy.DecodeLines | process.py:34-317 | column j of line k is that column's read of frame k, starting at byte 110k + Offset, written the column's way |
| Legacy.RateAsWritten | process.py:320 | the printed rate as written: ZeroDivisionError exactly when no time passes, otherwise rate × elapsed ms = 1000 × (lines + 1) |
| Legacy.Rate | process.py:320 | the corrected rate: ZeroDivisionError exactly when no time passes, otherwise rate × elapsed ms = 1000 × (lines − 1), the intervals between the lines |
| Legacy.SteadyRate | process.py:320 | n lines d ms apart give 1000 / d Hz |
| Legacy.RateOvercounts | process.py:320 | three lines 10 ms apart print 200 Hz, not 100 |
| Gps.Held | velocity-estimation.py:218-222 | the held value is never above 50 m/s |
| Gps.HeldIsLastKept | velocity-estimation.py:218-222 | the held value is the most recent reading of at most 50 m/s, or 0 when there is none |
| Gps.PyIndex | velocity-estimation.py:220 | Python's negative indexing: -1 is the last slot |
| Gps.GpsProcessing | velocity-estimation.py:205-224 | the loop over a zero array computes Filtered: readings of at most 50 pass through, a larger one repeats the previous output, and the first output is 0 when the first reading is too large |
| Gps.Idempotent | velocity-estimation.py:205-224 | filtering twice is filtering once |
| Gps.Unchanged | velocity-estimation.py:205-224 | the filter changes nothing exactly when no reading exceeds 50 |
| Gps.HoldsThroughRun | velocity-estimation.py:219-220 | a run of glitches after a kept reading holds that reading |

## Left out

- Benji2.Utf8: whether the header bytes are valid UTF-8, and the text they decode to, are given by a caller-supplied decoder `utf8`. UTF-8 itself is not modelled.
- Writers.Samples: every `Frames.Line` carries the row counter, but the MoTeC samples of `SDM26/benji2_to_motec.py:96` and `process_benji2_motec.py:130` have none. `Samples` drops the counter when it builds a sample.
- Floating point: Python floats are exact reals. `str()` rendering of the CSV values is not modelled, and lines are sequences of numbers.
- Sdm26Motec.Rate: `int(round(...))` of an infinite or NaN float cannot arise with reals, so the OverflowError a float would raise is left out.
- The MoTeC output: `motec_ld`, channel definitions and the `.ld` file writing are not modelled. The model ends at the samples and rate handed to it.
- I/O: file opening, output file naming and `os.path` handling are left out. A file is its byte sequence.
- Concurrency: multiprocessing and `process_directory` are left out. `_extract_number_from_filename` is modelled, because it decides output names.
- Debug prints: progress and debug output are left out, including the run-length print at `process.py:319`.
- The second block of `SDM26/SDM26_benji2_to_csv.py:78-107`: its `while data` tests the empty read that ended the first loop, so its body never runs and the block is not modelled. The root file's copy of the block is modelled (`RootCsv.SecondPass`), because there it reads on from a seek.
- Legacy.Value: `process.py:2-3` do not import as the tree stands. `process.py:2` imports every transfer function from one `transfer` module, but `transfer.py` defines no `fr_sg`, `fl_sg` or `rl_sg`, and no `sus` module is among the files at hand for line 3 (`owo` is defined in `sus-processing.py`, whose hyphenated name cannot be imported as `sus`). The model takes `fr_sg`, `fl_sg` and `rl_sg` from `SDM26/transfer.py` and `steering` from `transfer.py`. This mix is a choice of the model, not what the program does; with `SDM26/transfer.py` as the imported module, steering would be `Transfer.Steering` instead of the raw count.
- ProcessBenji2.Decode: the model assumes the module loads. `process_benji2.py:2` imports `fr_sg`, `fl_sg` and `rl_sg` from the root `transfer.py`, which does not define them, and `process_benji2.py:3` imports `owo` from a `sus` module that is not among the files at hand. The decoder's own calibration uses inline lambdas, which are modelled.
- RootCsv.Outcome: the model assumes the module loads, although `SDM26_benji2_to_csv.py:2-3` make the same two imports as `process_benji2.py:2-3`, with the same gaps.
- MultiBenji2.Decode: the model assumes the module loads. `SDM26/process_multi_benji2.py:2` finds `fr_sg`, `fl_sg` and `rl_sg` in `SDM26/transfer.py`, but `SDM26/process_multi_benji2.py:3` imports `owo` from a `sus` module that is not among the files at hand.
- Sdm26Csv.Decode: the model assumes the module loads, although `SDM26/SDM26_benji2_to_csv.py:3` imports `owo` from a `sus` module that is not among the files at hand.
- `shock_vel` (`process.py:3`, `321`): the `sus` module is not part of this model.
- Legacy.Decode: the header line is the constant `Legacy.Header()` rather than a field of the result. Its comma-freeness per title is not proved.
- Legacy.Decode: its `printed` field is the rate the print shows (`RateAsWritten`, 1000·(lines+1)/(last−init)), while its `rate` field is the corrected `Rate` (see Findings), which the program never computes.
- Legacy.Lines: each line is computed from the frame's bytes after the read loop, rather than inside the loop as the source does. `Legacy.DecodeLines` states the result per frame.
- `velocity-estimation.py`: only `GPSProcessing` is modelled. The Kalman and extended Kalman filters, plotting and the CSV loading are left out, because they are numeric floating-point code.

## Findings

| source | as written | input that shows it | evidently intended | confidence | as-written member | corrected member |
|---|---|---|---|---|---|---|
| process.py:33,37,320 | `count` starts at 1 and is raised once per frame, so it ends at lines + 1. The print divides by `(last - init) / count`, which reports 1000·(lines+1)/(last−init) Hz. | three frames stamped 0, 10 and 20 ms: the print shows 200 Hz | 1000·(lines−1)/(last−init), which is 100 Hz for frames 10 ms apart | not executed | Legacy.RateAsWritten, with Legacy.RateOvercounts | Legacy.Rate, with Legacy.SteadyRate; Legacy.Decode reports it as its rate field |
