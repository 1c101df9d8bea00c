# Bad Apple on an ESP32-C3: a verified model

The system plays the "Bad Apple" video on a 128 x 160 ST7735S panel. It plays a one-voice
melody on a PWM buzzer at the same time. Four programs make it up:

- `main.py` is the MicroPython player. It streams two files.
  - The video container is a series of records. Each record is a little-endian 16-bit length
    followed by that many zlib bytes, and holds one 1-bit frame of 2560 bytes.
  - The melody file is a series of 4-byte `<HH` records: tenths of a hertz, then the number of
    frames the note lasts.

  The player decodes each frame into one of two frame buffers while the other buffer is shown.
  It updates the buzzer once per frame, paces every frame to 50 ms, and starts again from the
  beginning when the video ends.
- `convert_badapple_gui.py` makes the video container. It keeps every `frame_interval`-th source
  frame, thresholds it to one bit per pixel, packs eight pixels to a byte, and writes each
  compressed frame as one record.
- `MIDI_to_melody.bin.py` makes the melody file. It pairs note-on and note-off events into
  segments, keeps the highest sounding frequency in each video frame, run-length encodes the
  result and writes one `<HH` record per run.
- `st7735s.py` is the panel driver. It covers colour packing, the clamped address windows,
  rotation, the backlight, partial refresh, a BMP dump of the frame buffer, text placement and a
  palette for 8-bit grey images.

The Dafny modules follow these programs:

| module | file | models |
|---|---|---|
| `Bytes` | `bytes.dfy` | the `struct` layouts the programs share |
| `Player` | `player.dfy` | `main.py` |
| `PlayerFacts` | `player_facts.dfy` | what the player guarantees |
| `Framer` | `framer.dfy` | `convert_badapple_gui.py` |
| `MelodyEncoder` | `melody.dfy` | `MIDI_to_melody.bin.py` |
| `Display` | `display.dfy` | `st7735s.py` |

`Player` describes the playback engine twice.

- Once as pure functions over the byte streams and the two buffers. `ReadRecord` reads a video
  record, `AudioTick` is the buzzer update, `Step` and `PlayLoop` are the inner loop, `Cycle`
  is one pass of the outer loop and `Runs` is several passes.
- Once as the imperative program. The classes `Stream` and `Player` hold the same state as the
  program: the two frame buffers, the scratch buffer `comp_buf` and the file cursors. Each
  method is proved to follow the matching function.

Both encoders write exactly the formats `Player` reads. That round trip is stated once, in
`PlayerFacts`.

The buzzer and the panel are an output trace of events. These parts of the program are inputs
rather than modelled behaviour:
- the milliseconds measured by `ticks_diff`;
- the zlib decoder, which either fails or yields some bytes;
- the zlib compressor;
- the font;
- MIDI frequency rounding.

On five points the code does something other than a reader of its comments might expect. The
model follows the code:
- A payload that reads short stops the current pass, and the player starts over. It does not
  show a black frame and go on (`main.py:174-177`).
- A missing or short first record ends the program (`main.py:105-122`).
- Decompression checks no size. A short output leaves the tail of the frame buffer as it was
  (`main.py:127-128`, `main.py:182-183`).
- When the melody file runs out and the rewind finds nothing, the player sets the frequency and
  the remaining frames to 0 and leaves the buzzer alone (`main.py:146-154`). The fetch is then
  tried again on every frame; the buzzer is not muted for good.
- The GS8 palette is meant as 256 grey levels (`st7735s.py:270`), but its entries are not grey.
  Entry i is `rgb565(8t, 4t, 8t)` with t = i >> 3. Green holds t of its 63 steps, red and blue
  t of their 31, so green sits at half the level of the others. The brightest entry is 0xFBFF
  rather than white 0xFFFF (`st7735s.py:272-275`).

## Model

| member | source | states |
|---|---|---|
| Bytes.U16LE | main.py:112 | `b0 \| b1 << 8` lies in 0..65535, and its low and high bytes are `b0` and `b1` |
| Bytes.PackU16LE | convert_badapple_gui.py:85 | `<H` is two bytes, and they read back little-endian as the value |
| Bytes.PackU16BE | st7735s.py:167 | `>H` is two bytes, and they read back big-endian as the value |
| Bytes.PackU32LE | st7735s.py:226 | `<I` is four bytes, and they read back as the value |
| Bytes.PackI32LE | st7735s.py:228 | `<i` is four bytes holding the 32-bit two's complement of the value |
| Bytes.PackU64LE | st7735s.py:228 | `<Q` is eight bytes, and they read back as the value |
| Bytes.PackU64LEZero | st7735s.py:228 | `<Q` of 0, the resolution fields, is eight zero bytes |
| Bytes.Zeros | main.py:131 | `b'\x00' * n` is n bytes, all zero |
| Player.Record | convert_badapple_gui.py:85-86 | a video record is 2 + len bytes: the `<H` length, then exactly the payload |
| Player.Container | convert_badapple_gui.py:85-86 | a video file is its records back to back: at least two bytes per record, and empty exactly when there are no records |
| Player.NoteRecord | MIDI_to_melody.bin.py:163 | a melody record is 4 bytes that unpack as (freq_x10, frames) |
| Player.NoteBytes | MIDI_to_melody.bin.py:161-163 | a melody file is 4 bytes per run |
| Player.ReadBytes | main.py:71 | `read(n)` returns at most n bytes, fewer at the end of the file, contiguous from the cursor |
| Player.ReadNote | main.py:65-76 | `read_next_note` returns a note exactly when 4 bytes remain, decoded `<HH`; the cursor moves by the bytes it read |
| Player.FrameLength | main.py:171 | the decoded header is at most 65535 |
| Player.ReadRecord | main.py:105-122 | a read that finds fewer than 2 header bytes ends the stream at its end. A record longer than MAX_COMP_SIZE or past the end reads short. Otherwise the payload comes back whole and the cursor moves by exactly 2 + frame_len |
| Player.Inflated | main.py:124-131 | a failed decode zeroes the buffer; a successful one overwrites a prefix and leaves the rest, with no size check |
| Player.Preload | main.py:88-102 | the melody is open exactly when the file exists and holds a whole first record; otherwise the audio state is silent |
| Player.Fetch | main.py:143-154 | the next note is fetched, wrapping to the start of the file after the last one; the file stays open |
| Player.AudioTick | main.py:142-164 | with no melody the buzzer gets duty 0. While frames remain, one frame is used up and the note sounds. A fetched zero-length note leaves the buzzer alone |
| Player.ToneEvents | main.py:157-161 | a sounding note sends `int(freq_x10 / 10)` hertz and then BUZZER_DUTY; a rest sends duty 0 alone |
| Player.Pace | main.py:194-198 | the sleep is positive exactly when the frame took less than FRAME_MS; then elapsed + sleep equals FRAME_MS; for a non-negative elapsed the sleep is at most FRAME_MS |
| Player.SleepEvents | main.py:197-198 | one `sleep_ms(wait)` when the wait is positive, nothing otherwise |
| Player.Ticked | main.py:142-164 | the audio update keeps the loop state inside its streams and buffers |
| Player.Advance | main.py:167-201 | the video part of an iteration keeps the state inside, and a step that goes on moves the cursor by at least 2 |
| Player.Step | main.py:140-201 | one iteration keeps the state inside and advances the cursor by at least 2 when it goes on |
| Player.PlayLoop | main.py:140-201 | the inner loop terminates and ends inside its streams and buffers |
| Player.Cycle | main.py:79-209 | a pass halts exactly when the video is missing or its first record does not read whole, and then nothing is sent and the buffers are untouched. Otherwise it ends with duty 0 and the 500 ms pause |
| Player.CyclePass | main.py:79-209 | the program's passes as a function of the buffers and the pass number |
| Player.Runs | main.py:79-209 | passes of the outer loop, stopping at the first that halts; no pass gives no trace, and the first pass's trace begins the whole trace |
| Player.Stream.constructor | main.py:82 | an opened file has its cursor at 0 |
| Player.Stream.Read | main.py:71 | `read(n)` returns ReadBytes at the cursor and moves the cursor by what it returned |
| Player.Stream.ReadInto | main.py:116 | `readinto(mv[:n])` reads at most min(n, buffer size) bytes into the front of the buffer and leaves the rest of the buffer untouched |
| Player.Stream.Rewind | main.py:148 | `seek(0)` puts the cursor at 0 |
| Player.ReadNextNote | main.py:65-76 | the method returns exactly what ReadNote specifies and moves the cursor to where ReadNote says |
| Player.Player.constructor | main.py:31-38 | two zeroed frame buffers of MONO_SIZE bytes and a scratch buffer of MAX_COMP_SIZE bytes, all distinct |
| Player.Player.TickAudio | main.py:142-164 | the loop variables after the audio update stand for AudioTick's state, and the trace grows by AudioTick's events |
| Player.Player.FetchNote | main.py:143-154 | read, then `seek(0)` and read again at the end of the file, gives Fetch's state |
| Player.Player.ReadFrame | main.py:167-177 | the header and payload reads succeed exactly when ReadRecord yields a payload, and the payload lands in `comp_buf`; the reader never writes beyond `comp_buf` |
| Player.Player.Decompress | main.py:180-186 | the decode buffer becomes Inflated of its old contents; nothing else is written |
| Player.Player.ShowFrame | main.py:189-198 | the display buffer is shown, then the pacing sleep when positive |
| Player.Player.AdvanceFrame | main.py:167-198 | the video part of an iteration is exactly Advance; a step that goes on hands the display role to the buffer just decoded |
| Player.Player.Iterate | main.py:140-201 | one iteration is exactly Step on the state the variables stand for |
| Player.Player.OpenMelody | main.py:88-102 | opening and preloading gives Preload's state; a file whose first record is missing is dropped |
| Player.Player.Loop | main.py:140-203 | the inner loop ends in PlayLoop's state: the same buffers and the same trace |
| Player.Player.PlayCycle | main.py:79-209 | one pass of the outer loop leaves the buffers and the trace that Cycle gives |
| Player.Player.Run | main.py:79-209 | a run of passes leaves the outcome, buffers and trace that Runs gives |
| Player.Player.RunPass | main.py:79-209 | one pass advances the run: what is sent so far plus the rest equals the whole run |
| Player.CycleOnPayload | main.py:124-135 | a pass whose first record reads whole starts the inner loop with `buf2` decoded and shown first |
| PlayerFacts.Offset | convert_badapple_gui.py:85-86 | where record k starts lies inside the container |
| PlayerFacts.OffsetBound | convert_badapple_gui.py:85-86 | the records before k are no longer than the container |
| PlayerFacts.ContainerPrefix | convert_badapple_gui.py:85-86 | record k sits right after records 0..k-1, 2 + len bytes long |
| PlayerFacts.ContainerLength | convert_badapple_gui.py:85-86 | after the last record the container ends, with no trailer |
| PlayerFacts.ReadRecordAt | main.py:167-177 | a record whose payload fits `comp_buf` reads back whole, and the cursor lands on the next record |
| PlayerFacts.ReadContainer | main.py:167-177 | reading what the framer wrote gives payload k at record k, and end of stream after the last record |
| PlayerFacts.OversizedRecordReadsShort | main.py:37-38 | a record longer than MAX_COMP_SIZE = 2624 always reads short |
| PlayerFacts.NoteBytesLayout | MIDI_to_melody.bin.py:161-163 | the file is 4 bytes per run, and run j is at byte 4j |
| PlayerFacts.ReadNoteAt | main.py:74 | a `<HH` record unpacks to the same (freq_x10, frames) |
| PlayerFacts.ReadMelody | main.py:71-75 | record j of a melody file reads back as note j; a trailing partial record reads as end of file |
| PlayerFacts.ProjectAppend | main.py:140-201 | the shown frames and the buzzer commands of two trace pieces add up |
| PlayerFacts.AudioOnlyProjections | main.py:142-164 | a trace of buzzer commands shows no frame |
| PlayerFacts.TickIsAudio | main.py:142-164 | the audio update sends only buzzer commands |
| PlayerFacts.TickN | main.py:142-164 | n audio ticks keep the melody cursor inside the file |
| PlayerFacts.TickNAdd | main.py:142-164 | n1 + n2 ticks are n1 ticks followed by n2 ticks |
| PlayerFacts.RepeatSplit | main.py:155-161 | a tone repeated n1 + n2 times is n1 repetitions followed by n2 |
| PlayerFacts.SilentMelody | main.py:92-96 | with no melody, or one too short for a record, every tick sends duty 0 |
| PlayerFacts.PreloadFirst | main.py:88-102 | the preload takes note 0 with its full length |
| PlayerFacts.MelodyTick | main.py:142-161 | while frames remain, a tick uses one up and sounds the note. At 0 the next note is fetched (note 0 after the last) and sounds at once, unless its length is 0: then the buzzer is left alone |
| PlayerFacts.PlayPart | main.py:155-161 | k ticks from a note with r >= k frames left sound it k times |
| PlayerFacts.PlayOut | main.py:155-161 | a note with r frames left sounds r times, then rests at 0 |
| PlayerFacts.PlayFirst | main.py:88-102 | from the preload the first note sounds for its whole length |
| PlayerFacts.TickNChain | main.py:140-164 | two runs of ticks, each starting where the one before ended, are one run |
| PlayerFacts.NextRecord | main.py:143-156 | a note that has run out is followed by the next record, sounding at once |
| PlayerFacts.NextNote | main.py:143-161 | after note j-1 has run out, note j sounds for its whole length |
| PlayerFacts.PlayNext | main.py:143-161 | once notes 0..j-1 have played, note j plays too |
| PlayerFacts.PlayPrefix | main.py:88-161 | the first i notes play in order, each for its length |
| PlayerFacts.MelodyLoops | main.py:143-156 | after the whole melody plays, the next tick is note 0 again, via `seek(0)` |
| PlayerFacts.TwoNotes | main.py:155-161 | a two-note melody is the first note's tones, then the second's |
| PlayerFacts.WrapAround | main.py:146-156 | at rest on the last note, note 0 sounds again for up to its length |
| PlayerFacts.MelodyWraps | main.py:143-156 | the whole melody plays, then note 0 starts over |
| PlayerFacts.TwoNoteExample | main.py:143-161 | a two-note melody played for both notes and n more frames gives the first note's tones, the second's, then the first note's n times |
| PlayerFacts.A440Example | main.py:143-161 | the melody `[(4400,5),(0,5)]`, twelve ticks from the preload: 440 Hz five times, duty 0 five times, then 440 Hz twice |
| PlayerFacts.AdvanceRoles | main.py:133-135 | an iteration that reads a whole payload swaps the roles. It decodes only into the decode buffer and shows the display buffer; the buffer it shows becomes the next decode buffer. Otherwise only the cursor moves |
| PlayerFacts.Frame | main.py:180-186 | a decoded frame is MONO_SIZE bytes |
| PlayerFacts.CoveringDecode | main.py:180-186 | a decode that fails or covers the buffer does not depend on what the buffer held |
| PlayerFacts.Decoded | main.py:180-186 | the frames of the first n records, one per record |
| PlayerFacts.TickNSucc | main.py:142-164 | one more tick appends that tick's commands |
| PlayerFacts.TickedProjections | main.py:142-164 | the audio update adds no shown frame and appends exactly its buzzer commands |
| PlayerFacts.ShowProjections | main.py:189-198 | showing and pacing add exactly one shown frame and no buzzer command |
| PlayerFacts.AdvanceAt | main.py:167-201 | at record k < N, record k is decoded, the waiting frame is shown and the cursor moves to record k + 1 |
| PlayerFacts.AdvanceAtEnd | main.py:167-170 | after the last record the header read ends the loop at the end of the file |
| PlayerFacts.IterationAt | main.py:140-201 | one iteration keeps the lag-by-one invariant from record k to k + 1 |
| PlayerFacts.IterationAtEnd | main.py:140-170 | the last iteration runs the audio tick and ends at the end of the video |
| PlayerFacts.LoopFrom | main.py:140-201 | from record k the inner loop shows frames 0..N-2 and runs N audio ticks |
| PlayerFacts.MuteProjections | main.py:203-209 | the end of a pass adds duty 0 and no shown frame |
| PlayerFacts.StartAt | main.py:104-135 | the bootstrap decodes record 0 into `buf2`, which is shown first, and the loop starts at record 1 |
| PlayerFacts.CycleLagsByOne | main.py:124-209 | for a container whose every record fits `comp_buf` and decodes to nothing or to at least MONO_SIZE bytes: frame k-1 is shown in iteration k, so a container of N records shows N-1 frames. It runs N audio ticks, ends with duty 0 and restarts |
| PlayerFacts.CyclePassHalts | main.py:105-122 | the program's passes halt exactly on an unplayable video |
| PlayerFacts.RunsHaltWhen | main.py:79-209 | passes that halt exactly when a condition holds make a run that halts in its first pass, with nothing sent |
| PlayerFacts.RunsHalt | main.py:79-122 | the outer loop halts exactly when the video is unplayable, then in the first pass, with nothing sent and the buffers untouched; otherwise it goes on |
| PlayerFacts.CyclePassRestarts | main.py:203-209 | over a playable video every pass restarts, ending with duty 0 and the 500 ms pause |
| PlayerFacts.RunsEndMuted | main.py:203-209 | a run of restarting passes never halts and ends muted with the pause |
| Framer.FrameInterval | convert_badapple_gui.py:48 | the interval equals the rounded ratio when that is at least 1, and is 1 otherwise |
| Framer.Sampled | convert_badapple_gui.py:64 | defines the encoded source frames: those whose index is a multiple of the interval |
| Framer.Threshold | convert_badapple_gui.py:76 | a pixel bit is 1 exactly when the grey value exceeds the threshold |
| Framer.Binarize | convert_badapple_gui.py:73-76 | the binary image has the same shape, with bit 1 exactly where grey > threshold |
| Framer.HornerBound | convert_badapple_gui.py:78 | n packed bits make a number below 2^n |
| Framer.ShiftHorner | convert_badapple_gui.py:78 | shifting right by k drops the last k bits |
| Framer.OctetBits | convert_badapple_gui.py:78 | unpacking a packed byte gives its eight pixels back, MSB first |
| Framer.ZeroBits | convert_badapple_gui.py:78 | the padding bits are zero |
| Framer.PackRow | convert_badapple_gui.py:78 | a packed row is ceil(width/8) bytes |
| Framer.RowBytes | convert_badapple_gui.py:78 | a row of `width` pixels takes ceil(width / 8) bytes: 8 times it covers the row with fewer than 8 bits spare |
| Framer.PackRowBits | convert_badapple_gui.py:78 | pixel x of a row is bit x mod 8 of byte x div 8, and the padding bits are zero |
| Framer.RowStartIs | convert_badapple_gui.py:78-79 | row y starts at byte y * ceil(width/8) |
| Framer.FramePrefix | convert_badapple_gui.py:78-79 | each packed row follows the rows before it |
| Framer.PackFrameSize | convert_badapple_gui.py:77-80 | a packed frame is height * ceil(width/8) bytes |
| Framer.PackFrame | convert_badapple_gui.py:77-79 | defines the packed frame: the packed rows one after the other |
| Framer.Raw | convert_badapple_gui.py:73-79 | defines one frame's raw bytes: the frame binarized at a threshold, then packed |
| Framer.FrameCutoff | convert_badapple_gui.py:73-76 | each frame's threshold is Otsu's value for that frame with `use_otsu`, and 128 without |
| Framer.PackFramePixel | convert_badapple_gui.py:77-79 | pixel (x, y) is bit x mod 8 of byte y * ceil(width/8) + x div 8: row-major, MSB first |
| Framer.PanelFrameSize | main.py:26 | a 128 x 160 frame packs into MONO_SIZE = 2560 bytes |
| Framer.SampleStep | convert_badapple_gui.py:64 | one more source frame adds one to the count exactly when it is sampled |
| Framer.SampledBefore | convert_badapple_gui.py:64 | every sampled frame counted before frame k comes before it |
| Framer.PayloadsSample | convert_badapple_gui.py:59-95 | exactly the frames whose index is a multiple of the interval are encoded: payload j comes from source frame j * interval, and there are ceil(n / interval) of them |
| Framer.Payloads | convert_badapple_gui.py:59-95 | defines the payloads: the compressed raw bytes of the sampled frames, in order, each at its own threshold |
| Framer.CompressVideo | convert_badapple_gui.py:52-95 | each sampled frame is cut at 128, or with `use_otsu` at the threshold Otsu's method picks for that frame. The file is the container of the payloads, `saved_frames` counts the records, `total_raw` is saved_frames times the packed size and `total_comp` the payload total. A payload of 65536 bytes or more stops it with the records before it written |
| Framer.NextFrame | convert_badapple_gui.py:64-95 | one more source frame adds its payload exactly when it is sampled |
| Framer.Grow | convert_badapple_gui.py:83-88 | writing one more record appends its bytes and its size |
| Framer.TotalAppend | convert_badapple_gui.py:83 | the payload total grows by the payload's length |
| Framer.PayloadsPrefix | convert_badapple_gui.py:59-95 | a prefix of the frames gives a prefix of the payloads |
| Framer.NotFramable | convert_badapple_gui.py:85 | a payload too long for `<H` makes the records unwritable |
| Framer.RawSize | convert_badapple_gui.py:80 | every raw frame is a whole packed frame |
| Framer.Lower | convert_badapple_gui.py:136 | lower-casing keeps the length |
| Framer.FixBinName | convert_badapple_gui.py:136-137 | afterwards the lower-cased name ends with `.bin`; a name that already did is unchanged, any other gets `.bin` appended |
| Framer.FixBinNameIdempotent | convert_badapple_gui.py:136-137 | fixing twice is fixing once |
| Framer.Ask | convert_badapple_gui.py:16-29 | an empty answer gives the default. A non-empty stripped answer is returned exactly when it converts and its value passes the validator, and then as that value |
| Framer.Strip | convert_badapple_gui.py:19 | the result is a slice `s[i..j]` of the input with only white space outside it, and it has no white space at either end; white space is what `str.isspace` accepts |
| Framer.StripVerticalTab | convert_badapple_gui.py:19 | `a.bin` followed by a vertical tab strips to `a.bin`, which `FixBinName` keeps |
| Framer.Space | convert_badapple_gui.py:19 | defines white space for `strip`: the code points 9-13, 28-32, 0x85, 0xA0, 0x1680, 0x2000-0x200A, 0x2028, 0x2029, 0x202F, 0x205F and 0x3000 |
| Framer.DefaultsValid | convert_badapple_gui.py:127-144 | the defaults pass their own validators (fps 1..120, level 0..9, positive sizes), and 128 x 160 packs into MONO_SIZE |
| Framer.ValidFps | convert_badapple_gui.py:127 | defines the frame-rate validator, 1 to 120 |
| Framer.ValidLevel | convert_badapple_gui.py:130 | defines the compression-level validator, 0 to 9 |
| Framer.ValidDimension | convert_badapple_gui.py:143-144 | defines the width and height validator, positive |
| MelodyEncoder.PairSegments | MIDI_to_melody.bin.py:108-117 | the loop builds exactly the segments of the pairing over the events |
| MelodyEncoder.PairStep | MIDI_to_melody.bin.py:110-117 | one event only ever appends a segment, at most one, and a note-on appends none |
| MelodyEncoder.Paired | MIDI_to_melody.bin.py:108-117 | the pairing over the events yields at most one segment per event |
| MelodyEncoder.LastEnd | MIDI_to_melody.bin.py:126 | `max(end for ...)`: no segment ends later, and some segment ends there |
| MelodyEncoder.TotalFrames | MIDI_to_melody.bin.py:126-127 | every segment ends before total_frames, and some segment ends exactly one frame before it (the latest end plus one) |
| MelodyEncoder.RepeatedOnIgnored | MIDI_to_melody.bin.py:111-113 | a note-on for a sounding note changes nothing, so its earliest start is kept |
| MelodyEncoder.StrayOffIgnored | MIDI_to_melody.bin.py:114-115 | a note-off for a note not sounding changes nothing |
| MelodyEncoder.OnOpens | MIDI_to_melody.bin.py:111-113 | a note-on for a note that is not sounding records its start frame and adds no segment |
| MelodyEncoder.OffCloses | MIDI_to_melody.bin.py:114-117 | a note-off for a sounding note adds exactly one segment from its start, and the note stops sounding |
| MelodyEncoder.PairedTraced | MIDI_to_melody.bin.py:108-117 | every segment was opened by a note-on and closed by a later note-off of its note |
| MelodyEncoder.SegmentsOrdered | MIDI_to_melody.bin.py:104-117 | on time-sorted events every segment starts no later than it ends |
| MelodyEncoder.UnreleasedNoteSilent | MIDI_to_melody.bin.py:108-117 | a note never released gives no segment |
| MelodyEncoder.LoudestIsMax | MIDI_to_melody.bin.py:143-146 | each frame holds the maximum frequency of the segments covering it, or 0 if none does |
| MelodyEncoder.Loudest | MIDI_to_melody.bin.py:143-146 | a frame's value is 0 or the frequency of a segment covering it |
| MelodyEncoder.FrameFreqs | MIDI_to_melody.bin.py:131 | the frame array has total_frames entries |
| MelodyEncoder.LoudestStep | MIDI_to_melody.bin.py:143-146 | one more segment raises a covered frame to its frequency when higher |
| MelodyEncoder.FillFrames | MIDI_to_melody.bin.py:131-146 | the fill loops give exactly the per-frame maxima |
| MelodyEncoder.FillSegment | MIDI_to_melody.bin.py:134-146 | one segment raises the frames it covers to its frequency and leaves the others; `end_frame` is clamped and late segments are skipped, so every write is inside the array |
| MelodyEncoder.Fill | MIDI_to_melody.bin.py:153-155 | a run stands for count copies of its value |
| MelodyEncoder.ExpandLength | MIDI_to_melody.bin.py:149-158 | the runs stand for as many frames as their counts add up to |
| MelodyEncoder.ExpandAppend | MIDI_to_melody.bin.py:157 | appending a run appends its frames and its count |
| MelodyEncoder.RunLength | MIDI_to_melody.bin.py:149-158 | the runs partition the array: every count is at least 1, the counts sum to its length, expanding gives it back, and neighbours differ |
| MelodyEncoder.ExpandTail | MIDI_to_melody.bin.py:149-158 | the last frames of an expansion are the last run's value |
| MelodyEncoder.CanonicalUnique | MIDI_to_melody.bin.py:149-158 | runs with counts of at least 1 and differing neighbours are determined by what they expand to, so the encoding is unique |
| MelodyEncoder.CanonicalPrefix | MIDI_to_melody.bin.py:149-158 | dropping the last run keeps the runs canonical |
| MelodyEncoder.SumPositive | MIDI_to_melody.bin.py:149-158 | non-empty canonical runs stand for at least one frame |
| MelodyEncoder.LastValueDiffers | MIDI_to_melody.bin.py:154 | the frame before the last run holds a different value |
| MelodyEncoder.Melody | MIDI_to_melody.bin.py:156-157 | one (freq_x10, count) note per run, in order |
| MelodyEncoder.WriteMelody | MIDI_to_melody.bin.py:161-163 | the file is the `<HH` records of all runs. A value above 65535 stops the writing, with the records before it written |
| MelodyEncoder.PlayerReadsMelody | MIDI_to_melody.bin.py:161-163 | the player reads run j back from byte 4j, and end of file after the last |
| MelodyEncoder.MelodyDuration | MIDI_to_melody.bin.py:149-158 | the melody lasts as many frames as the frame array has |
| MelodyEncoder.MidiToMelody | MIDI_to_melody.bin.py:108-163 | with no complete segment no file is written. Otherwise the runs are the canonical run-length encoding of the per-frame maxima over total_frames. The file holds all their records when every value fits `<H`; otherwise the records before the first run that does not fit |
| Display.Clamp | st7735s.py:27-29 | when aMin <= aMax the result lies in [aMin, aMax], equals aVal when aVal is in range, and otherwise equals the nearer bound |
| Display.ClampIdempotent | st7735s.py:27-29 | clamping twice changes nothing |
| Display.Pack565 | st7735s.py:36-38 | the packed colour is 16 bits: R div 8, G div 4 and B div 8 in fields of 5, 6 and 5 bits |
| Display.FieldsApart | st7735s.py:38 | the three fields do not overlap, so the or is a sum |
| Display.Rgb565 | st7735s.py:31-39 | `rgb565` is the packed colour with its two bytes exchanged |
| Display.Span | st7735s.py:163-166 | a clamped span is ordered and inside the side, and unchanged when already inside |
| Display.SpanIdempotent | st7735s.py:163-166 | clamping a clamped span changes nothing |
| Display.PackSpan | st7735s.py:167-168 | `>HH` is four bytes holding start and end big-endian |
| Display.Window | st7735s.py:157-168 | exactly 0x2A with the clamped columns, then 0x2B with the clamped rows |
| Display.DisMode | st7735s.py:170-186 | SCROLL sends its three words. Any other mode is sent alone, and PART is followed by 0x30 with its rows clamped to the longer side |
| Display.ScrollStart | st7735s.py:188-190 | 0x37 with the first row clamped to the panel |
| Display.RotIndex | st7735s.py:149 | `(angle // 90) % 4` is in 0..3, and is angle div 90 for 0 <= angle < 360 |
| Display.RotParam | st7735s.py:147 | defines `rot_param`: 0x00, 0x60, 0xC0, 0xA0 for the four quarter turns |
| Display.RotIndexPeriodic | st7735s.py:149 | a whole turn does not change the orientation |
| Display.Oriented | st7735s.py:151-152 | the sides swap or stay and width * height is kept; an even index gives width <= height, an odd one width >= height |
| Display.OrientedIdempotent | st7735s.py:151-152 | rotating twice to the same angle is rotating once |
| Display.BacklightLevel | st7735s.py:125 | the duty is at most 65535 |
| Display.BacklightKeepsDuty | st7735s.py:125 | the duty keeps the setting modulo 256 |
| Display.BacklightScale | st7735s.py:119-125 | 0 is off, 255 is 65535, and a brighter setting never gives less light |
| Display.CellsIs | st7735s.py:66 | the pixel count is width * rows |
| Display.CellsMono | st7735s.py:206-207 | more rows start later |
| Display.CellsSym | st7735s.py:151-152 | swapping the sides keeps the pixel count |
| Display.Filled | st7735s.py:116 | a filled buffer keeps its length |
| Display.FilledPixel | st7735s.py:116 | every pixel of a filled buffer reads back as the colour |
| Display.FilledBlack | st7735s.py:114-117 | clearing to black zeroes the buffer |
| Display.VPart | st7735s.py:197-208 | `showVPart` sends exactly the bytes from ys * w * 2 to (ye + 1) * w * 2 of the clamped rows, inside the buffer |
| Display.VPartBytes | st7735s.py:202-208 | the rows `showVPart` clamps by hand are the clamped span, and its byte slice is VPart's |
| Display.RowBytes | st7735s.py:206-207 | the byte offsets computed are where the rows start |
| Display.Swapped | st7735s.py:232-235 | the dump keeps the length |
| Display.SwappedPixel | st7735s.py:235 | pixel i of the dump is pixel i of the buffer with its two bytes exchanged |
| Display.SwappedStep | st7735s.py:233-235 | one more pixel appends its two bytes exchanged |
| Display.SwappedTwice | st7735s.py:235 | exchanging twice gives the buffer back |
| Display.U16AtLeft | st7735s.py:226-230 | a field keeps its value when bytes follow |
| Display.U16AtRight | st7735s.py:226-230 | a field keeps its value when bytes come before it |
| Display.U32AtLeft | st7735s.py:226-230 | a 32-bit field keeps its value when bytes follow |
| Display.U32AtRight | st7735s.py:226-230 | a 32-bit field keeps its value when bytes come before it |
| Display.SliceRight | st7735s.py:226-230 | a run of bytes keeps its contents when bytes come before it |
| Display.FileHeader | st7735s.py:226 | the 14-byte file header holds the signature, the size, the zero reserved field and the pixel offset |
| Display.Signed32 | st7735s.py:228 | the two's complement of a 32-bit value fits 32 bits |
| Display.InfoFront | st7735s.py:228 | the header size, the width and the negated height sit at 0, 4 and 8 |
| Display.InfoBack | st7735s.py:228 | planes, bits per pixel, compression and image size sit at 12, 14, 16 and 20, followed by the two `<Q` zero resolutions, 16 zero bytes |
| Display.InfoHeader | st7735s.py:228 | the 40-byte information header holds 40, the width, -height, one plane, 16 bits per pixel, compression 3, the image size and zero resolutions and colour counts |
| Display.Masks | st7735s.py:230 | the 16-byte mask block holds the three masks and a zero alpha mask |
| Display.HeaderOffsets | st7735s.py:226-230 | the fields of the three headers land at their offsets in the file |
| Display.BmpHeader | st7735s.py:223-230 | the headers are 14 + 40 + 16 = 70 bytes, the stated pixel offset. The size counts the pixels after them. The information-header size 40, the width, the negated height, one plane, 16 bits, compression 3 (BI_BITFIELDS) and the masks 0xF800, 0x07E0, 0x001F sit where a reader looks. The reserved field, the resolutions and colour counts, and the alpha mask are zero |
| Display.PixelInside | st7735s.py:234 | every pixel offset the loop computes is inside the buffer |
| Display.GreyEntry | st7735s.py:273-275 | the palette bytes for level t read back as `rgb565(8t, 4t, 8t)` |
| Display.GreyLow | st7735s.py:274 | the low palette byte, `t << 3` or-ed with `t >> 3`, fits a byte for t < 32 |
| Display.GreyHigh | st7735s.py:275 | defines the high palette byte, `t << 5` or-ed with `t`, with the bits above the byte dropped |
| Display.DivMod256 | st7735s.py:274-275 | a byte's high and low parts are unique |
| Display.Startup | st7735s.py:78-86 | sleep out first and display on last, with 0x36 exactly when wider than high |
| Display.Screen | st7735s.py:192-195 | `show` is the whole panel as the window, then the pixels |
| Display.Boot | st7735s.py:78-89 | `__init__` sends the start-up commands, then the whole screen |
| Display.SwapRows | st7735s.py:232-235 | the pixel loops give every pixel with its bytes exchanged, row by row |
| Display.SwapRow | st7735s.py:233-235 | one row of the loop appends that row's pixels exchanged |
| Display.BootFrom | st7735s.py:78-89 | the start-up commands then one `show` are what `__init__` sends |
| Display.ST7735S.constructor | st7735s.py:44-91 | a zeroed buffer of w * h * 2 bytes; the boot commands sent; the backlight at half |
| Display.ST7735S.PowerOn | st7735s.py:78-89 | the start-up commands and a black screen |
| Display.ST7735S.SendStartup | st7735s.py:78-86 | the start-up commands, in order |
| Display.ST7735S.Write | st7735s.py:98-112 | `_write` records exactly one transfer and changes nothing else |
| Display.ST7735S.Fill | st7735s.py:116 | every pixel set to the colour, stored little-endian |
| Display.ST7735S.Clear | st7735s.py:114-117 | the buffer filled, then the whole screen shown |
| Display.ST7735S.Backlight | st7735s.py:119-125 | the duty becomes `(duty % 256) * 257` when there is a backlight; nothing is sent |
| Display.ST7735S.Sleep | st7735s.py:127-132 | backlight off, then 0x28 and 0x10 |
| Display.ST7735S.Wakeup | st7735s.py:134-140 | 0x11 and 0x29, then the backlight at half |
| Display.ST7735S.Rotate | st7735s.py:142-155 | the sides follow the orientation, the pixel count stays, and 0x36 goes out with `rot_param[idx]` |
| Display.ST7735S.SetWindow | st7735s.py:157-168 | exactly the Window transfers |
| Display.ST7735S.SetDisMode | st7735s.py:170-186 | exactly the DisMode transfers |
| Display.ST7735S.SetScrollStart | st7735s.py:188-190 | exactly the ScrollStart transfer |
| Display.ST7735S.Show | st7735s.py:192-195 | the whole panel as the window, then the whole buffer |
| Display.ST7735S.ShowVPart | st7735s.py:197-208 | the clamped rows as the window, then exactly their bytes |
| Display.ST7735S.ShowImage | st7735s.py:210-216 | the window, then the image bytes as given |
| Display.ST7735S.BufToBmp | st7735s.py:218-236 | the file is the 70-byte headers, then every pixel with its bytes exchanged |
| Display.ST7735S.DrawText | st7735s.py:238-257 | glyphs go left to right, each just right of the one before, and each fits the panel. Drawing stops at the first glyph that is empty or does not fit |
| Display.Gs8Palette | st7735s.py:269-277 | the 256 entries are `rgb565(8t, 4t, 8t)`, t = i >> 3 |
| Display.PaletteGreenHalf | st7735s.py:270-275 | an entry's red and blue fields hold t of 31 and its green field t of 63, below half range; the top entry is 0xFBFF, and no entry is white 0xFFFF |
| Display.GreyPalette | st7735s.py:272-275 | the palette bytes read as those `rgb565(8t, 4t, 8t)` colours |
| Display.PenIsSum | st7735s.py:251-257 | each glyph starts at x plus the widths of the glyphs before it |
| Display.Pen | st7735s.py:251-257 | defines where the next glyph goes: x at first, then just right of the last one drawn |
| Display.Fits | st7735s.py:253-254 | defines when a glyph is drawn: not empty and inside the panel |

## Left out

- Hardware: SPI, pins, PWM, the reset pulse, `sleep_ms` and `ticks_ms`. The buzzer commands, the panel updates and the sleeps are events of a trace. The milliseconds `ticks_diff` measures in each iteration are an input.
- The zlib codec. The decoder is an input function that fails or yields some bytes. The compressor is an input function.
- MicroPython `framebuf`: `blit`, the palette lookup and `MONO_HLSB` drawing. A shown frame is the display buffer's bytes. The driver's `fill` writes the colour's bytes directly.
- `cv2` capture, grey conversion, resizing and the median filter. The model starts from resized grey images. Otsu's method itself is an input function that gives each frame its threshold. `mido` MIDI parsing is left out too: the model starts from the time-sorted events.
- Floating point:
  - the MIDI tempo conversion;
  - `int(t * fps)`, taken as the event's frame;
  - the equal-temperament frequency, an input function of the note number;
  - `round(freq * 10)`, an input function;
  - the FPS ratio rounding, taken as the rounded ratio.
- Printing, progress and ETA output, the compression ratio printout, `confirm_overwrite`, `choose_file_from_dir`, argparse and the interactive prompts beyond one answer to `get_input`.
- File-system calls: `os.stat`, `open` and `close`. Streams are byte sequences. A file that cannot be opened is `None`: `open_melody`'s `OSError` and a missing video at `main.py:81-85`.
- Player.Player.Run: the outer `while True` runs for a given number of passes. The passes go on exactly as long as the model is run.
- Player.Stream.ReadInto: `readinto` is cut to the length of the scratch buffer, not to a memoryview object; aliasing of `mv` is not modelled.
- Framer.Lower: ASCII only, no Unicode case mapping.
- Framer.Ask: one answer at a time; the loop that asks again is not modelled.
- Display.Rgb565: components must be in 0..255. Outside that range Python's bit operations give other values.
- Display.Window, Display.DisMode, Display.ScrollStart and the methods that use them need sides of at most 65536. For larger sides `>H` raises.
- Display.DisMode and Display.ST7735S.SetDisMode require the parameters the mode reads: three 16-bit ones for SCROLL, two for PART. With fewer, Python raises.
- Display.ST7735S.BufToBmp requires the height and the file size to fit the header fields. `pack` would raise otherwise. The pixels are gathered first and the headers put in front; the bytes are the same.
- Display.ST7735S.constructor: the backlight level is set before the start-up commands rather than after. The duty is not part of the trace, so the state is the same.
- Display.ST7735S.DrawText: only the placement of glyphs is modelled, not the bitmaps `blit` draws.
- MelodyEncoder.MidiToMelody: the frequencies the RLE compares are the input function's natural numbers, not floats.
