/** The on-device playback engine of `main.py`.

    The program reads two files: the video container (records of a little-endian 16-bit length
    followed by that many zlib bytes) and the melody (4-byte records `<HH`: tenths of a hertz,
    then the number of frames the note lasts). It decodes one frame into one of two frame
    buffers while the other is shown, drives the buzzer once per frame and paces each
    iteration to FRAME_MS.

    The engine is modelled twice, once as pure functions over the streams and the buffers
    (ReadRecord, AudioTick, Step, PlayLoop, Cycle, Runs) and once as the imperative program
    (class Stream, class Player), whose methods are proved to follow the functions. The
    buzzer and the panel are an output trace of Events; the milliseconds measured by
    `ticks_diff` are an input; `deflate.DeflateIO` is an input function that either fails
    (None) or produces some bytes. */
module Player {
  import opened Bytes

  const WIDTH: nat := 128
  const HEIGHT: nat := 160
  /** Bytes of one 1-bit frame; every row is padded to whole bytes. */
  const MONO_SIZE: nat := HEIGHT * ((WIDTH + 7) / 8)
  const FPS: nat := 20
  const FRAME_MS: nat := 1000 / FPS
  /** Size of the scratch buffer every compressed payload is read into. */
  const MAX_COMP_SIZE: nat := MONO_SIZE + 64
  const BUZZER_DUTY: nat := 560
  const RESTART_PAUSE_MS: nat := 500

  /** One melody record: tenths of a hertz (0 is silence) and a duration in frames. */
  datatype Note = Note(freqX10: nat, frames: nat)

  /** What the buzzer and the panel are told, in order. */
  datatype Event =
    | Freq(hz: nat)           // buzzer.freq(hz)
    | Duty(duty: nat)         // buzzer.duty(duty)
    | Show(frame: seq<byte>)  // lcd.blit of the display buffer through the palette, then lcd.show()
    | Sleep(ms: nat)          // sleep_ms(ms)

  // ------------------------------------------------------------------
  // The two file formats
  // ------------------------------------------------------------------

  predicate Framable(payloads: seq<seq<byte>>) {
    forall k :: 0 <= k < |payloads| ==> |payloads[k]| < 0x1_0000
  }

  /** One video record: the payload length as `<H`, then the payload. */
  function Record(payload: seq<byte>): (r: seq<byte>)
    requires |payload| < 0x1_0000
    ensures |r| == 2 + |payload| && U16LE(r[0], r[1]) == |payload| && r[2..] == payload
  {
    PackU16LE(|payload|) + payload
  }

  /** A video file: its records one after the other, with no header and no terminator. */
  function Container(payloads: seq<seq<byte>>): (r: seq<byte>)
    requires Framable(payloads)
    ensures |r| >= 2 * |payloads|
    ensures r == [] <==> payloads == []
  {
    if payloads == [] then []
    else Container(payloads[..|payloads| - 1]) + Record(payloads[|payloads| - 1])
  }

  predicate Packable(notes: seq<Note>) {
    forall k :: 0 <= k < |notes| ==> notes[k].freqX10 < 0x1_0000 && notes[k].frames < 0x1_0000
  }

  /** One melody record, `struct.pack('<HH', freq_x10, frames)`. */
  function NoteRecord(n: Note): (r: seq<byte>)
    requires n.freqX10 < 0x1_0000 && n.frames < 0x1_0000
    ensures |r| == 4 && U16LE(r[0], r[1]) == n.freqX10 && U16LE(r[2], r[3]) == n.frames
  {
    PackU16LE(n.freqX10) + PackU16LE(n.frames)
  }

  /** A melody file: its records one after the other. */
  function NoteBytes(notes: seq<Note>): (r: seq<byte>)
    requires Packable(notes)
    ensures |r| == 4 * |notes|
  {
    if notes == [] then []
    else NoteBytes(notes[..|notes| - 1]) + NoteRecord(notes[|notes| - 1])
  }

  // ------------------------------------------------------------------
  // Reading the streams
  // ------------------------------------------------------------------

  /** `f.read(n)` at cursor `pos`: at most `n` bytes, fewer at the end of the file. */
  function ReadBytes(data: seq<byte>, pos: nat, n: nat): (r: seq<byte>)
    requires pos <= |data|
    ensures |r| == Min(n, |data| - pos) && r == data[pos..pos + |r|]
  {
    data[pos..pos + Min(n, |data| - pos)]
  }

  datatype NoteRead = NoteRead(note: Option<Note>, pos: nat)

  /** `read_next_note`: four bytes unpacked as `<HH`, or None when fewer than four remain. */
  function ReadNote(data: seq<byte>, pos: nat): (r: NoteRead)
    requires pos <= |data|
    ensures r.pos == Min(pos + 4, |data|)
    ensures r.note.Some? <==> pos + 4 <= |data|
    ensures r.note.Some? ==>
      r.note.value == Note(U16LE(data[pos], data[pos + 1]), U16LE(data[pos + 2], data[pos + 3]))
  {
    var chunk := ReadBytes(data, pos, 4);
    if |chunk| < 4 then NoteRead(None, pos + |chunk|)
    else NoteRead(Some(Note(U16LE(chunk[0], chunk[1]), U16LE(chunk[2], chunk[3]))), pos + 4)
  }

  /** The little-endian length prefix of the record at `pos`. */
  function FrameLength(data: seq<byte>, pos: nat): (len: nat)
    requires pos + 2 <= |data|
    ensures len < 0x1_0000
  {
    U16LE(data[pos], data[pos + 1])
  }

  datatype RecordRead =
    | EndOfStream(pos: nat)                  // fewer than two header bytes
    | ShortPayload(pos: nat)                 // readinto returned fewer bytes than the header asked for
    | Payload(payload: seq<byte>, pos: nat)  // the whole payload is in the scratch buffer

  /** `vf.read(2)` followed by `vf.readinto(memoryview(comp_buf)[:frame_len])`. Slicing the
      memoryview cuts it to the buffer, so at most MAX_COMP_SIZE bytes are taken and a
      longer record always reads short. */
  function ReadRecord(data: seq<byte>, pos: nat): (r: RecordRead)
    requires pos <= |data|
    ensures pos <= r.pos <= |data|
    ensures r.EndOfStream? <==> |data| - pos < 2
    ensures r.EndOfStream? ==> r.pos == |data|
    ensures !r.EndOfStream? ==> r.pos >= pos + 2
    ensures r.Payload? <==>
      pos + 2 <= |data| && FrameLength(data, pos) <= MAX_COMP_SIZE && pos + 2 + FrameLength(data, pos) <= |data|
    ensures r.Payload? ==> r.pos == pos + 2 + FrameLength(data, pos) && r.payload == data[pos + 2..r.pos]
    ensures r.ShortPayload? ==> r.pos == pos + 2 + Min(Min(FrameLength(data, pos), MAX_COMP_SIZE), |data| - pos - 2)
  {
    var header := ReadBytes(data, pos, 2);
    if |header| < 2 then EndOfStream(pos + |header|)
    else
      var frameLen := U16LE(header[0], header[1]);
      var got := ReadBytes(data, pos + 2, Min(frameLen, MAX_COMP_SIZE));
      if |got| < frameLen then ShortPayload(pos + 2 + |got|)
      else Payload(got, pos + 2 + |got|)
  }

  // ------------------------------------------------------------------
  // Decoding, the buzzer and pacing
  // ------------------------------------------------------------------

  /** A frame buffer after decoding into it: `DeflateIO(...).readinto(buf)` fills as much of the
      buffer as the output covers and leaves the rest; a failure (an exception) makes the
      handler zero the whole buffer. No size is checked. */
  function Inflated(buf: seq<byte>, result: Option<seq<byte>>): (r: seq<byte>)
    ensures |r| == |buf|
    ensures result.None? ==> forall i :: 0 <= i < |r| ==> r[i] == 0
    ensures result.Some? ==> forall i :: 0 <= i < |r| ==>
      r[i] == if i < |result.value| then result.value[i] else buf[i]
  {
    match result
    case None => Zeros(|buf|)
    case Some(out) => var k := Min(|out|, |buf|); out[..k] + buf[k..]
  }

  /** The melody side of the loop state. `open` is `mf` being a file; `freqX10` stands for
      `current_freq` (exactly `freqX10 / 10.0`); `remaining` is `remaining_frames`. */
  datatype Audio = Audio(open: bool, pos: nat, freqX10: nat, remaining: nat)

  /** No melody file, or one closed because its first record was missing. */
  const Muted := Audio(false, 0, 0, 0)

  function MelodyData(melody: Option<seq<byte>>): seq<byte> {
    if melody.Some? then melody.value else []
  }

  /** Opening the melody and preloading its first note (lines 88-102). */
  function Preload(melody: Option<seq<byte>>): (a: Audio)
    ensures a.pos <= |MelodyData(melody)|
    ensures !a.open ==> a == Muted
    ensures a.open <==> melody.Some? && |melody.value| >= 4
  {
    if melody.None? then Muted
    else
      var r := ReadNote(melody.value, 0);
      if r.note.None? then Muted
      else Audio(true, r.pos, r.note.value.freqX10, r.note.value.frames)
  }

  /** What a sounding tick tells the buzzer: `int(current_freq)` and the fixed duty, or duty 0. */
  function ToneEvents(freqX10: nat): (r: seq<Event>)
    ensures freqX10 > 0 ==> |r| == 2 && r[1] == Duty(BUZZER_DUTY)
    ensures freqX10 > 0 ==> r[0].Freq? && 10 * r[0].hz <= freqX10 < 10 * r[0].hz + 10
    ensures freqX10 == 0 ==> r == [Duty(0)]
  {
    if freqX10 > 0 then [Freq(freqX10 / 10), Duty(BUZZER_DUTY)] else [Duty(0)]
  }

  /** Fetching the next note when the current one has run out: at the end of the file,
      `seek(0)` and one more read; if that fails too, silence with nothing remaining. */
  function Fetch(m: seq<byte>, pos: nat): (a: Audio)
    requires pos <= |m|
    ensures a.open && a.pos <= |m|
  {
    var r := ReadNote(m, pos);
    var r' := if r.note.Some? then r else ReadNote(m, 0);
    match r'.note
    case Some(n) => Audio(true, r'.pos, n.freqX10, n.frames)
    case None => Audio(true, r'.pos, 0, 0)
  }

  datatype Tick = Tick(audio: Audio, events: seq<Event>)

  /** The audio update at the top of every iteration (lines 142-164). */
  function AudioTick(m: seq<byte>, a: Audio): (t: Tick)
    requires a.pos <= |m|
    ensures t.audio.open == a.open && t.audio.pos <= |m|
    ensures !a.open ==> t.audio == a && t.events == [Duty(0)]
    ensures a.open && a.remaining > 0 ==>
      t.audio == a.(remaining := a.remaining - 1) && t.events == ToneEvents(a.freqX10)
  {
    if !a.open then Tick(a, [Duty(0)])
    else
      var b := if a.remaining == 0 then Fetch(m, a.pos) else a;
      if b.remaining > 0 then Tick(b.(remaining := b.remaining - 1), ToneEvents(b.freqX10))
      else Tick(b, [])
  }

  /** The pacing rule: sleep `FRAME_MS - elapsed` when that is positive. */
  function Pace(elapsed: int): (wait: nat)
    ensures elapsed + wait >= FRAME_MS
    ensures wait > 0 <==> elapsed < FRAME_MS
    ensures wait > 0 ==> elapsed + wait == FRAME_MS
    ensures elapsed >= 0 ==> wait <= FRAME_MS
  {
    if FRAME_MS - elapsed > 0 then FRAME_MS - elapsed else 0
  }

  /** `time.sleep_ms(wait)`, issued only when there is time left. */
  function SleepEvents(wait: nat): (r: seq<Event>)
    ensures r == [] <==> wait == 0
    ensures forall k :: 0 <= k < |r| ==> r[k] == Sleep(wait)
  {
    if wait > 0 then [Sleep(wait)] else []
  }

  // ------------------------------------------------------------------
  // The playback loop as a state machine
  // ------------------------------------------------------------------

  /** The inputs of one playback cycle. `elapsed(k)` is what `ticks_diff` measures around the
      display transfer of the k-th iteration. */
  datatype Config = Config(
    video: seq<byte>,
    melody: seq<byte>,
    inflate: seq<byte> -> Option<seq<byte>>,
    elapsed: nat -> int)

  /** The loop state: the video cursor, the audio state, which buffer has the display role
      (`display_fb is fb2`), both buffers' contents, the iteration number and the trace. */
  datatype State = State(
    vpos: nat,
    audio: Audio,
    displayIs2: bool,
    fb1: seq<byte>,
    fb2: seq<byte>,
    iter: nat,
    trace: seq<Event>)

  predicate Inside(cfg: Config, s: State) {
    s.vpos <= |cfg.video| && s.audio.pos <= |cfg.melody| && |s.fb1| == MONO_SIZE && |s.fb2| == MONO_SIZE
  }

  function DisplayBuffer(s: State): seq<byte> { if s.displayIs2 then s.fb2 else s.fb1 }

  function DecodeBuffer(s: State): seq<byte> { if s.displayIs2 then s.fb1 else s.fb2 }

  /** Why the inner loop ended: the header read came back short, or the payload did. */
  datatype Exit = EndOfVideo | Truncated

  datatype StepResult = Next(s: State) | Stop(s: State, why: Exit)

  /** The audio update applied to the loop state. */
  function Ticked(cfg: Config, s: State): (s': State)
    requires Inside(cfg, s)
    ensures Inside(cfg, s')
  {
    var t := AudioTick(cfg.melody, s.audio);
    s.(audio := t.audio, trace := s.trace + t.events)
  }

  /** The video part of an iteration (lines 167-201): read a record; on a whole payload,
      decode it into the decode buffer, show the display buffer, pace, swap the roles. */
  function Advance(cfg: Config, s: State): (r: StepResult)
    requires Inside(cfg, s)
    ensures Inside(cfg, r.s)
    ensures r.Next? ==> r.s.vpos >= s.vpos + 2
  {
    match ReadRecord(cfg.video, s.vpos)
    case EndOfStream(p) => Stop(s.(vpos := p), EndOfVideo)
    case ShortPayload(p) => Stop(s.(vpos := p), Truncated)
    case Payload(payload, p) =>
      var decoded := Inflated(DecodeBuffer(s), cfg.inflate(payload));
      var wait := Pace(cfg.elapsed(s.iter));
      Next(State(p, s.audio, !s.displayIs2,
                 if s.displayIs2 then decoded else s.fb1,
                 if s.displayIs2 then s.fb2 else decoded,
                 s.iter + 1,
                 s.trace + [Show(DisplayBuffer(s))] + SleepEvents(wait)))
  }

  /** One iteration of the inner loop (lines 140-201): the audio update, then the video part. */
  function Step(cfg: Config, s: State): (r: StepResult)
    requires Inside(cfg, s)
    ensures Inside(cfg, r.s)
    ensures r.Next? ==> r.s.vpos >= s.vpos + 2
  {
    Advance(cfg, Ticked(cfg, s))
  }

  /** The inner loop, run until a read ends it. */
  function PlayLoop(cfg: Config, s: State): (r: (State, Exit))
    requires Inside(cfg, s)
    ensures Inside(cfg, r.0)
    decreases |cfg.video| - s.vpos
  {
    match Step(cfg, s)
    case Stop(s', why) => (s', why)
    case Next(s') => PlayLoop(cfg, s')
  }

  datatype Outcome = Restart | Halt

  datatype CycleResult = CycleResult(outcome: Outcome, fb1: seq<byte>, fb2: seq<byte>, trace: seq<Event>)

  /** One pass of the outer `while True` (lines 79-209): open the files, preload the first
      note, decode the first record synchronously into `buf2`, run the inner loop with
      `buf2` shown first, then mute the buzzer and pause. A video that cannot be opened, or
      whose first record is missing or short, ends the program. */
  function Cycle(video: Option<seq<byte>>, melody: Option<seq<byte>>,
                 inflate: seq<byte> -> Option<seq<byte>>, elapsed: nat -> int,
                 fb1: seq<byte>, fb2: seq<byte>): (r: CycleResult)
    requires |fb1| == MONO_SIZE && |fb2| == MONO_SIZE
    ensures |r.fb1| == MONO_SIZE && |r.fb2| == MONO_SIZE
    ensures r.outcome == Halt <==> video.None? || !ReadRecord(video.value, 0).Payload?
    ensures r.outcome == Halt ==> r.fb1 == fb1 && r.fb2 == fb2 && r.trace == []
    ensures r.outcome == Restart ==>
      |r.trace| >= 2 && r.trace[|r.trace| - 2..] == [Duty(0), Sleep(RESTART_PAUSE_MS)]
  {
    if video.None? then CycleResult(Halt, fb1, fb2, [])
    else
      match ReadRecord(video.value, 0)
      case EndOfStream(_) => CycleResult(Halt, fb1, fb2, [])
      case ShortPayload(_) => CycleResult(Halt, fb1, fb2, [])
      case Payload(payload, p) =>
        var cfg := Config(video.value, MelodyData(melody), inflate, elapsed);
        var start := State(p, Preload(melody), true, fb1, Inflated(fb2, inflate(payload)), 0, []);
        var (last, _) := PlayLoop(cfg, start);
        CycleResult(Restart, last.fb1, last.fb2, last.trace + [Duty(0), Sleep(RESTART_PAUSE_MS)])
  }

  /** What one pass of the outer loop does to the two buffers in pass number `c`. */
  type Pass = (seq<byte>, seq<byte>, nat) -> CycleResult

  /** `pass` is the program's Cycle on these files, with `clock(c)(k)` the elapsed time
      measured in iteration k of pass c. */
  ghost predicate IsCyclePass(pass: Pass, video: Option<seq<byte>>, melody: Option<seq<byte>>,
                              inflate: seq<byte> -> Option<seq<byte>>, clock: nat -> nat -> int)
  {
    forall fb1, fb2, c {:trigger Cycle(video, melody, inflate, clock(c), fb1, fb2)} ::
      |fb1| == MONO_SIZE && |fb2| == MONO_SIZE ==> pass(fb1, fb2, c) == Cycle(video, melody, inflate, clock(c), fb1, fb2)
  }

  /** The program's passes, as a Pass. */
  function CyclePass(video: Option<seq<byte>>, melody: Option<seq<byte>>,
                     inflate: seq<byte> -> Option<seq<byte>>, clock: nat -> nat -> int): (pass: Pass)
    ensures IsCyclePass(pass, video, melody, inflate, clock)
  {
    (fb1: seq<byte>, fb2: seq<byte>, c: nat) =>
      if |fb1| == MONO_SIZE && |fb2| == MONO_SIZE then Cycle(video, melody, inflate, clock(c), fb1, fb2)
      else CycleResult(Halt, fb1, fb2, [])
  }

  /** `cycles` passes of the outer loop from pass number `c` on, or fewer if one halts. The
      files do not change between passes; the buffers carry over and the traces add up. */
  function Runs(pass: Pass, fb1: seq<byte>, fb2: seq<byte>, cycles: nat, c: nat): (r: CycleResult)
    ensures cycles == 0 ==> r.outcome == Restart && r.trace == []
    ensures cycles >= 1 ==> pass(fb1, fb2, c).trace <= r.trace
    decreases cycles
  {
    if cycles == 0 then CycleResult(Restart, fb1, fb2, [])
    else
      var r := pass(fb1, fb2, c);
      if r.outcome == Halt then r
      else
        var rest := Runs(pass, r.fb1, r.fb2, cycles - 1, c + 1);
        CycleResult(rest.outcome, rest.fb1, rest.fb2, r.trace + rest.trace)
  }

  // ------------------------------------------------------------------
  // The imperative program
  // ------------------------------------------------------------------

  /** An open file: its bytes and a cursor. */
  class Stream {
    const data: seq<byte>
    var pos: nat

    ghost predicate Valid()
      reads this
    {
      pos <= |data|
    }

    constructor (data: seq<byte>)
      ensures Valid() && this.data == data && pos == 0
    {
      this.data := data;
      pos := 0;
    }

    /** `f.read(n)` */
    method Read(n: nat) returns (chunk: seq<byte>)
      requires Valid()
      modifies this`pos
      ensures Valid()
      ensures chunk == ReadBytes(data, old(pos), n) && pos == old(pos) + |chunk|
    {
      chunk := data[pos..pos + Min(n, |data| - pos)];
      pos := pos + |chunk|;
    }

    /** `f.readinto(memoryview(buf)[:n])`: the view is cut to the buffer's length, and the
        bytes read land at the front of the buffer. */
    method ReadInto(buf: array<byte>, n: nat) returns (count: nat)
      requires Valid()
      modifies this`pos, buf
      ensures Valid()
      ensures count == Min(Min(n, buf.Length), |data| - old(pos)) && pos == old(pos) + count
      ensures buf[..count] == ReadBytes(data, old(pos), Min(n, buf.Length))
      ensures buf[count..] == old(buf[count..])
    {
      var chunk := data[pos..pos + Min(Min(n, buf.Length), |data| - pos)];
      forall i | 0 <= i < |chunk| {
        buf[i] := chunk[i];
      }
      count := |chunk|;
      pos := pos + count;
    }

    /** `f.seek(0)` */
    method Rewind()
      requires Valid()
      modifies this`pos
      ensures Valid() && pos == 0
    {
      pos := 0;
    }
  }

  /** `read_next_note(melody_file)` */
  method ReadNextNote(mf: Stream) returns (note: Option<Note>)
    requires mf.Valid()
    modifies mf
    ensures mf.Valid()
    ensures ReadNote(mf.data, old(mf.pos)) == NoteRead(note, mf.pos)
  {
    var data := mf.Read(4);
    if |data| < 4 {
      return None;
    }
    note := Some(Note(U16LE(data[0], data[1]), U16LE(data[2], data[3])));
  }

  /** How the loop's audio variables stand for an Audio value. */
  ghost predicate AudioHolds(a: Audio, mf: Stream?, m: seq<byte>, freqX10: nat, remaining: nat)
    reads mf
  {
    if mf == null then a == Muted && freqX10 == 0 && remaining == 0
    else mf.Valid() && mf.data == m && a == Audio(true, mf.pos, freqX10, remaining)
  }

  /** The state the program allocates once and keeps for its lifetime: the two frame
      buffers, the scratch buffer for compressed payloads, and what has been sent to the
      buzzer and the panel so far. */
  class Player {
    const buf1: array<byte>
    const buf2: array<byte>
    const compBuf: array<byte>
    var trace: seq<Event>

    ghost predicate Valid()
      reads this
    {
      && buf1.Length == MONO_SIZE && buf2.Length == MONO_SIZE && compBuf.Length == MAX_COMP_SIZE
      && buf1 != buf2 && compBuf != buf1 && compBuf != buf2
    }

    constructor ()
      ensures Valid() && fresh(buf1) && fresh(buf2) && fresh(compBuf)
      ensures buf1[..] == Zeros(MONO_SIZE) && buf2[..] == Zeros(MONO_SIZE) && trace == []
    {
      buf1 := new byte[MONO_SIZE](i => 0);
      buf2 := new byte[MONO_SIZE](i => 0);
      compBuf := new byte[MAX_COMP_SIZE](i => 0);
      trace := [];
    }

    /** How the video-side variables stand for a State of the cycle whose trace began after `t0`. */
    ghost predicate VideoHolds(cfg: Config, s: State, vf: Stream, displayFb: array<byte>, iter: nat, t0: seq<Event>)
      reads this, vf, buf1, buf2
    {
      && Valid() && Inside(cfg, s)
      && vf.Valid() && vf.data == cfg.video && vf.pos == s.vpos
      && (displayFb == buf2 || displayFb == buf1)
      && s.displayIs2 == (displayFb == buf2)
      && s.fb1 == buf1[..] && s.fb2 == buf2[..]
      && s.iter == iter
      && trace == t0 + s.trace
    }

    /** How all the loop's variables stand for a State. */
    ghost predicate Holds(cfg: Config, s: State, vf: Stream, mf: Stream?, displayFb: array<byte>,
                          freqX10: nat, remaining: nat, iter: nat, t0: seq<Event>)
      reads this, vf, mf, buf1, buf2
    {
      && VideoHolds(cfg, s, vf, displayFb, iter, t0) && vf != mf
      && AudioHolds(s.audio, mf, cfg.melody, freqX10, remaining)
    }

    /** The audio update of lines 142-164, on the loop's variables. */
    method TickAudio(mf: Stream?, freqX10: nat, remaining: nat, ghost m: seq<byte>, ghost a: Audio)
      returns (freqX10': nat, remaining': nat)
      requires AudioHolds(a, mf, m, freqX10, remaining)
      modifies this`trace, mf
      ensures AudioHolds(AudioTick(m, a).audio, mf, m, freqX10', remaining')
      ensures trace == old(trace) + AudioTick(m, a).events
    {
      freqX10', remaining' := freqX10, remaining;
      if mf != null {
        if remaining' == 0 {
          freqX10', remaining' := FetchNote(mf, m);
        }
        if remaining' > 0 {
          remaining' := remaining' - 1;
          if freqX10' > 0 {
            trace := trace + [Freq(freqX10' / 10), Duty(BUZZER_DUTY)];
          } else {
            trace := trace + [Duty(0)];
          }
        }
      } else {
        trace := trace + [Duty(0)];
      }
    }


    /** A note that has run out is replaced by the next one (lines 143-154): at the end of
        the file, `seek(0)` and one more read; nothing read means silence. */
    method FetchNote(mf: Stream, ghost m: seq<byte>) returns (freqX10: nat, remaining: nat)
      requires mf.Valid() && mf.data == m
      modifies mf
      ensures AudioHolds(Fetch(m, old(mf.pos)), mf, m, freqX10, remaining)
    {
      var next := ReadNextNote(mf);
      if next.None? {
        mf.Rewind();
        next := ReadNextNote(mf);
      }
      if next.Some? {
        freqX10, remaining := next.value.freqX10, next.value.frames;
      } else {
        freqX10, remaining := 0, 0;
      }
    }

    /** Reading one record into `comp_buf` (lines 105-117 and 167-175): `vf.read(2)`, then
        `vf.readinto(mv[:frame_len])`. `ok` is false when either read comes back short. */
    method ReadFrame(vf: Stream) returns (ok: bool, frameLen: nat)
      requires Valid() && vf.Valid()
      modifies vf, compBuf
      ensures vf.Valid()
      ensures vf.pos == ReadRecord(vf.data, old(vf.pos)).pos
      ensures ok <==> ReadRecord(vf.data, old(vf.pos)).Payload?
      ensures ok ==> frameLen <= compBuf.Length && compBuf[..frameLen] == ReadRecord(vf.data, old(vf.pos)).payload
    {
      ghost var p0 := vf.pos;
      var lenData := vf.Read(2);
      if |lenData| < 2 {
        return false, 0;
      }
      frameLen := U16LE(lenData[0], lenData[1]);
      assert frameLen == FrameLength(vf.data, p0);
      var n := vf.ReadInto(compBuf, frameLen);
      ok := n >= frameLen;
    }

    /** Decompressing `comp_buf[:len]` into `target`, zeroing it if decompression fails. */
    method Decompress(len: nat, target: array<byte>, inflate: seq<byte> -> Option<seq<byte>>)
      requires Valid() && len <= compBuf.Length && (target == buf1 || target == buf2)
      modifies target
      ensures target[..] == Inflated(old(target[..]), inflate(compBuf[..len]))
    {
      ghost var before := target[..];
      var result := inflate(compBuf[..len]);
      if result.None? {
        forall i | 0 <= i < target.Length {
          target[i] := 0;
        }
        assert target[..] == Zeros(target.Length);
      } else {
        var out := result.value;
        var k := Min(|out|, target.Length);
        forall i | 0 <= i < k {
          target[i] := out[i];
        }
      }
      assert target[..] == Inflated(before, result);
      assert compBuf[..len] == old(compBuf[..len]);
    }

    /** Showing the display buffer and pacing (lines 189-198). */
    method ShowFrame(displayFb: array<byte>, elapsed: int)
      modifies this`trace
      ensures trace == old(trace) + [Show(displayFb[..])] + SleepEvents(Pace(elapsed))
    {
      trace := trace + [Show(displayFb[..])];
      var wait := FRAME_MS - elapsed;
      if wait > 0 {
        trace := trace + [Sleep(wait)];
      }
    }

    /** The video part of one iteration (lines 167-201); the caller swaps the roles. */
    method AdvanceFrame(cfg: Config, vf: Stream, displayFb: array<byte>, decodeFb: array<byte>,
                        iter: nat, ghost s: State, ghost t0: seq<Event>)
      returns (stop: bool, ghost s': State)
      requires VideoHolds(cfg, s, vf, displayFb, iter, t0)
      requires decodeFb == (if displayFb == buf2 then buf1 else buf2)
      modifies this`trace, vf, decodeFb, compBuf
      ensures stop ==> Advance(cfg, s).Stop? && Advance(cfg, s).s == s'
      ensures stop ==> VideoHolds(cfg, s', vf, displayFb, iter, t0)
      ensures !stop ==> Advance(cfg, s) == Next(s')
      ensures !stop ==> VideoHolds(cfg, s', vf, decodeFb, iter + 1, t0)
    {
      ghost var rec := ReadRecord(cfg.video, s.vpos);
      var ok, frameLen := ReadFrame(vf);
      if !ok {
        stop := true;
        s' := s.(vpos := vf.pos);
        return;
      }
      ghost var decoded := Inflated(DecodeBuffer(s), cfg.inflate(rec.payload));
      Decompress(frameLen, decodeFb, cfg.inflate);
      assert decodeFb[..] == decoded;
      ShowFrame(displayFb, cfg.elapsed(iter));
      stop := false;
      s' := State(vf.pos, s.audio, !s.displayIs2, buf1[..], buf2[..], iter + 1,
                  s.trace + [Show(DisplayBuffer(s))] + SleepEvents(Pace(cfg.elapsed(iter))));
    }

    /** One iteration of the inner loop (lines 140-201). */
    method Iterate(cfg: Config, vf: Stream, mf: Stream?, displayFb: array<byte>, decodeFb: array<byte>,
                   freqX10: nat, remaining: nat, iter: nat, ghost s: State, ghost t0: seq<Event>)
      returns (stop: bool, freqX10': nat, remaining': nat, ghost s': State)
      requires Holds(cfg, s, vf, mf, displayFb, freqX10, remaining, iter, t0)
      requires decodeFb == (if displayFb == buf2 then buf1 else buf2)
      modifies this`trace, vf, mf, decodeFb, compBuf
      ensures stop ==> Step(cfg, s).Stop? && Step(cfg, s).s == s'
      ensures stop ==> Holds(cfg, s', vf, mf, displayFb, freqX10', remaining', iter, t0)
      ensures !stop ==> Step(cfg, s) == Next(s')
      ensures !stop ==> Holds(cfg, s', vf, mf, decodeFb, freqX10', remaining', iter + 1, t0)
    {
      ghost var s1 := Ticked(cfg, s);
      freqX10', remaining' := TickAudio(mf, freqX10, remaining, cfg.melody, s.audio);
      Associative(t0, s.trace, AudioTick(cfg.melody, s.audio).events);
      assert VideoHolds(cfg, s1, vf, displayFb, iter, t0);
      stop, s' := AdvanceFrame(cfg, vf, displayFb, decodeFb, iter, s1, t0);
    }

    /** Opening the melody and preloading its first note (lines 88-102); a file whose first
        record is missing is closed and dropped. */
    method OpenMelody(melody: Option<seq<byte>>) returns (mf: Stream?, freqX10: nat, remaining: nat)
      ensures AudioHolds(Preload(melody), mf, MelodyData(melody), freqX10, remaining)
      ensures mf != null ==> fresh(mf)
    {
      mf, freqX10, remaining := null, 0, 0;
      if melody.Some? {
        var f := new Stream(melody.value);
        var note := ReadNextNote(f);
        if note.Some? {
          mf := f;
          freqX10, remaining := note.value.freqX10, note.value.frames;
        }
      }
    }

    /** The inner `while True` (lines 140-203), from the state `s0` it stands for to the
        state at which a read ends it. */
    method Loop(cfg: Config, vf: Stream, mf: Stream?, displayFb: array<byte>, decodeFb: array<byte>,
                freqX10: nat, remaining: nat, ghost s0: State)
      returns (ghost last: State)
      requires s0.iter == 0 && Holds(cfg, s0, vf, mf, displayFb, freqX10, remaining, 0, trace)
      requires decodeFb == (if displayFb == buf2 then buf1 else buf2)
      modifies this`trace, vf, mf, buf1, buf2, compBuf
      ensures Valid()
      ensures last == PlayLoop(cfg, s0).0
      ensures buf1[..] == last.fb1 && buf2[..] == last.fb2 && trace == old(trace) + last.trace
    {
      ghost var t0 := trace;
      ghost var s := s0;
      var displayFb, decodeFb, freqX10, remaining, iter := displayFb, decodeFb, freqX10, remaining, 0;
      while true
        invariant Holds(cfg, s, vf, mf, displayFb, freqX10, remaining, iter, t0)
        invariant decodeFb == (if displayFb == buf2 then buf1 else buf2)
        invariant PlayLoop(cfg, s0) == PlayLoop(cfg, s)
        decreases |cfg.video| - vf.pos
      {
        var stop;
        ghost var s';
        stop, freqX10, remaining, s' := Iterate(cfg, vf, mf, displayFb, decodeFb, freqX10, remaining, iter, s, t0);
        if stop {
          last := s';
          return;
        }
        displayFb, decodeFb := decodeFb, displayFb;
        s := s';
        iter := iter + 1;
      }
    }

    /** One pass of the outer loop (lines 79-209). */
    method PlayCycle(video: Option<seq<byte>>, melody: Option<seq<byte>>,
                     inflate: seq<byte> -> Option<seq<byte>>, elapsed: nat -> int)
      returns (outcome: Outcome)
      requires Valid()
      modifies this`trace, buf1, buf2, compBuf
      ensures Valid()
      ensures var r := Cycle(video, melody, inflate, elapsed, old(buf1[..]), old(buf2[..]));
        outcome == r.outcome && buf1[..] == r.fb1 && buf2[..] == r.fb2 && trace == old(trace) + r.trace
    {
      if video.None? {
        return Halt;
      }
      var vf := new Stream(video.value);
      var mf, freqX10, remaining := OpenMelody(melody);
      var ok, frameLen := ReadFrame(vf);
      if !ok {
        return Halt;
      }
      ghost var payload := ReadRecord(video.value, 0).payload;
      ghost var fb1 := buf1[..];
      Decompress(frameLen, buf2, inflate);
      var cfg := Config(video.value, MelodyData(melody), inflate, elapsed);
      ghost var s0 := State(vf.pos, Preload(melody), true, fb1, buf2[..], 0, []);
      ghost var last := Loop(cfg, vf, mf, buf2, buf1, freqX10, remaining, s0);
      CycleOnPayload(video.value, melody, inflate, elapsed, fb1, old(buf2[..]), payload, s0.vpos);
      Associative(old(trace), last.trace, [Duty(0), Sleep(RESTART_PAUSE_MS)]);
      trace := trace + [Duty(0), Sleep(RESTART_PAUSE_MS)];
      outcome := Restart;
    }

    /** The outer `while True`, run for at most `cycles` passes. */
    method Run(video: Option<seq<byte>>, melody: Option<seq<byte>>,
               inflate: seq<byte> -> Option<seq<byte>>, clock: nat -> nat -> int,
               ghost pass: Pass, cycles: nat)
      returns (outcome: Outcome)
      requires Valid() && IsCyclePass(pass, video, melody, inflate, clock)
      modifies this`trace, buf1, buf2, compBuf
      ensures Valid()
      ensures var r := Runs(pass, old(buf1[..]), old(buf2[..]), cycles, 0);
        outcome == r.outcome && buf1[..] == r.fb1 && buf2[..] == r.fb2 && trace == old(trace) + r.trace
    {
      ghost var r0 := Runs(pass, buf1[..], buf2[..], cycles, 0);
      ghost var rest := r0;
      ghost var t0 := trace;
      ghost var done: seq<Event> := [];
      var c, left := 0, cycles;
      outcome := Restart;
      while left > 0
        invariant Valid() && outcome == Restart
        invariant trace == t0 + done
        invariant rest == Runs(pass, buf1[..], buf2[..], left, c)
        invariant r0 == CycleResult(rest.outcome, rest.fb1, rest.fb2, done + rest.trace)
      {
        ghost var done', rest';
        outcome, done', rest' := RunPass(video, melody, inflate, clock, pass, left, c, r0, t0, done, rest);
        if outcome == Halt {
          return;
        }
        done, rest := done', rest';
        c, left := c + 1, left - 1;
      }
    }

    /** Pass `c` of the outer loop, as a step of Runs: before it, the passes so far sent
        `done` and the remaining ones give `rest`; after it, `done'` and `rest'`. */
    method RunPass(video: Option<seq<byte>>, melody: Option<seq<byte>>,
                   inflate: seq<byte> -> Option<seq<byte>>, clock: nat -> nat -> int,
                   ghost pass: Pass, cycles: nat, c: nat, ghost r0: CycleResult, ghost t0: seq<Event>,
                   ghost done: seq<Event>, ghost rest: CycleResult)
      returns (outcome: Outcome, ghost done': seq<Event>, ghost rest': CycleResult)
      requires Valid() && IsCyclePass(pass, video, melody, inflate, clock) && cycles > 0 && trace == t0 + done
      requires rest == Runs(pass, buf1[..], buf2[..], cycles, c)
      requires r0 == CycleResult(rest.outcome, rest.fb1, rest.fb2, done + rest.trace)
      modifies this`trace, buf1, buf2, compBuf
      ensures Valid() && trace == t0 + done'
      ensures rest' == Runs(pass, buf1[..], buf2[..], cycles - 1, c + 1)
      ensures outcome == Halt ==> r0 == CycleResult(Halt, buf1[..], buf2[..], done')
      ensures outcome == Restart ==> r0 == CycleResult(rest'.outcome, rest'.fb1, rest'.fb2, done' + rest'.trace)
    {
      ghost var r := Cycle(video, melody, inflate, clock(c), buf1[..], buf2[..]);
      outcome := PlayCycle(video, melody, inflate, clock(c));
      done' := done + r.trace;
      rest' := Runs(pass, buf1[..], buf2[..], cycles - 1, c + 1);
      Associative(t0, done, r.trace);
      Associative(done, r.trace, rest'.trace);
    }
  }

  /** A pass whose first record reads whole runs the inner loop from the decoded first
      frame and ends with the buzzer muted and the restart pause. */
  lemma {:induction false} CycleOnPayload(video: seq<byte>, melody: Option<seq<byte>>,
                                          inflate: seq<byte> -> Option<seq<byte>>, elapsed: nat -> int,
                                          fb1: seq<byte>, fb2: seq<byte>, payload: seq<byte>, p: nat)
    requires |fb1| == MONO_SIZE && |fb2| == MONO_SIZE && ReadRecord(video, 0) == Payload(payload, p)
    ensures var cfg := Config(video, MelodyData(melody), inflate, elapsed);
      var start := State(p, Preload(melody), true, fb1, Inflated(fb2, inflate(payload)), 0, []);
      var last := PlayLoop(cfg, start).0;
      Cycle(Some(video), melody, inflate, elapsed, fb1, fb2) ==
        CycleResult(Restart, last.fb1, last.fb2, last.trace + [Duty(0), Sleep(RESTART_PAUSE_MS)])
  {
  }

  lemma {:induction false} Associative<T>(a: seq<T>, b: seq<T>, c: seq<T>)
    ensures a + (b + c) == (a + b) + c
  {
  }
}
