/** What the playback engine of `main.py` guarantees, stated over its functional model:
    how the container and the melody file are read back, how the two buffers trade roles,
    that a frame is shown one iteration after it is decoded, how the note sequencer walks
    and wraps the melody, and when the outer loop halts. */
module PlayerFacts {
  import opened Bytes
  import opened Player

  // ------------------------------------------------------------------
  // Reading a container back
  // ------------------------------------------------------------------

  /** Where record `k` of a container starts. */
  function Offset(ps: seq<seq<byte>>, k: nat): (off: nat)
    requires Framable(ps) && k <= |ps|
    ensures off <= |Container(ps)|
  {
    OffsetBound(ps, k);
    |Container(ps[..k])|
  }

  lemma {:induction false} OffsetBound(ps: seq<seq<byte>>, k: nat)
    requires Framable(ps) && k <= |ps|
    ensures |Container(ps[..k])| <= |Container(ps)|
    decreases |ps| - k
  {
    if k == |ps| {
      assert ps[..k] == ps;
    } else {
      OffsetBound(ps, k + 1);
      assert ps[..k + 1][..k] == ps[..k];
    }
  }

  lemma {:induction false} FramablePrefix(ps: seq<seq<byte>>, k: nat)
    requires Framable(ps) && k <= |ps|
    ensures Framable(ps[..k])
  {
  }

  /** The first `k` records are a prefix of the whole container, and the next record
      directly follows them. */
  lemma {:induction false} ContainerPrefix(ps: seq<seq<byte>>, k: nat)
    requires Framable(ps) && k < |ps|
    ensures Offset(ps, k + 1) == Offset(ps, k) + 2 + |ps[k]| <= |Container(ps)|
    ensures Container(ps)[Offset(ps, k)..Offset(ps, k + 1)] == Record(ps[k])
    ensures Container(ps)[..Offset(ps, k + 1)] == Container(ps[..k + 1])
    decreases |ps| - k
  {
    assert ps[..k + 1][..k] == ps[..k];
    assert Container(ps[..k + 1]) == Container(ps[..k]) + Record(ps[k]);
    if k + 1 == |ps| {
      assert ps[..k + 1] == ps;
    } else {
      ContainerPrefix(ps, k + 1);
      assert ps[..k + 2][..k + 1] == ps[..k + 1];
      assert Container(ps[..k + 2]) == Container(ps[..k + 1]) + Record(ps[k + 1]);
      assert Container(ps)[..Offset(ps, k + 1)] == Container(ps[..k + 2])[..Offset(ps, k + 1)];
    }
  }

  lemma {:induction false} ContainerLength(ps: seq<seq<byte>>)
    requires Framable(ps)
    ensures Offset(ps, |ps|) == |Container(ps)|
  {
    assert ps[..|ps|] == ps;
  }

  /** A record whose payload fits the scratch buffer reads back as that payload, and the
      cursor lands on the next record. */
  lemma {:induction false} ReadRecordAt(data: seq<byte>, pos: nat, payload: seq<byte>)
    requires |payload| <= MAX_COMP_SIZE
    requires pos + 2 + |payload| <= |data| && data[pos..pos + 2 + |payload|] == Record(payload)
    ensures ReadRecord(data, pos) == Payload(payload, pos + 2 + |payload|)
  {
    var r := Record(payload);
    assert data[pos] == r[0] && data[pos + 1] == r[1];
    assert FrameLength(data, pos) == |payload|;
    assert data[pos + 2..pos + 2 + |payload|] == r[2..];
  }

  /** The reader's view of a container written by the framer: record k yields payload k as
      long as it fits the scratch buffer, and a read at the end reports the end of the
      stream. Together: decoding what was encoded gives the payloads back. */
  lemma {:induction false} ReadContainer(ps: seq<seq<byte>>, k: nat)
    requires Framable(ps) && k <= |ps|
    requires k < |ps| ==> |ps[k]| <= MAX_COMP_SIZE
    ensures k < |ps| ==> ReadRecord(Container(ps), Offset(ps, k)) == Payload(ps[k], Offset(ps, k + 1))
    ensures k == |ps| ==> ReadRecord(Container(ps), Offset(ps, k)) == EndOfStream(|Container(ps)|)
  {
    if k < |ps| {
      ContainerPrefix(ps, k);
      ReadRecordAt(Container(ps), Offset(ps, k), ps[k]);
    } else {
      ContainerLength(ps);
    }
  }

  /** A record longer than the scratch buffer always reads short, whatever follows it. */
  lemma {:induction false} OversizedRecordReadsShort(ps: seq<seq<byte>>, k: nat)
    requires Framable(ps) && k < |ps| && |ps[k]| > MAX_COMP_SIZE
    ensures ReadRecord(Container(ps), Offset(ps, k)).ShortPayload?
  {
    ContainerPrefix(ps, k);
    var data, pos, r := Container(ps), Offset(ps, k), Record(ps[k]);
    assert data[pos] == r[0] && data[pos + 1] == r[1];
    assert FrameLength(data, pos) == |ps[k]|;
  }

  // ------------------------------------------------------------------
  // Reading a melody back
  // ------------------------------------------------------------------

  lemma {:induction false} PackablePrefix(rs: seq<Note>, k: nat)
    requires Packable(rs) && k <= |rs|
    ensures Packable(rs[..k])
  {
  }

  /** Record j of a melody file sits at byte 4j, and the file is 4 bytes per record. */
  lemma {:induction false} NoteBytesLayout(rs: seq<Note>, j: nat)
    requires Packable(rs) && j < |rs|
    ensures |NoteBytes(rs)| == 4 * |rs|
    ensures NoteBytes(rs)[4 * j..4 * j + 4] == NoteRecord(rs[j])
    decreases |rs|
  {
    var n := |rs| - 1;
    assert NoteBytes(rs) == NoteBytes(rs[..n]) + NoteRecord(rs[n]);
    if j < n {
      NoteBytesLayout(rs[..n], j);
    } else if n > 0 {
      NoteBytesLayout(rs[..n], 0);
    }
  }

  /** A record written by NoteRecord reads back as the same note. */
  lemma {:induction false} ReadNoteAt(data: seq<byte>, pos: nat, n: Note)
    requires n.freqX10 < 0x1_0000 && n.frames < 0x1_0000
    requires pos + 4 <= |data| && data[pos..pos + 4] == NoteRecord(n)
    ensures ReadNote(data, pos) == NoteRead(Some(n), pos + 4)
  {
    var r := NoteRecord(n);
    assert data[pos] == r[0] && data[pos + 1] == r[1] && data[pos + 2] == r[2] && data[pos + 3] == r[3];
  }

  /** Reading the melody file back: record j unpacks to note j; at the end, a trailing
      partial record (fewer than 4 bytes) reads as the end of the file. */
  lemma {:induction false} ReadMelody(rs: seq<Note>, tail: seq<byte>, j: nat)
    requires Packable(rs) && |tail| < 4 && j <= |rs|
    ensures j < |rs| ==> ReadNote(NoteBytes(rs) + tail, 4 * j) == NoteRead(Some(rs[j]), 4 * (j + 1))
    ensures j == |rs| ==> ReadNote(NoteBytes(rs) + tail, 4 * j).note.None?
  {
    var m := NoteBytes(rs) + tail;
    if j < |rs| {
      NoteBytesLayout(rs, j);
      assert m[4 * j..4 * j + 4] == NoteBytes(rs)[4 * j..4 * j + 4];
      ReadNoteAt(m, 4 * j, rs[j]);
    }
  }

  // ------------------------------------------------------------------
  // Projections of the trace
  // ------------------------------------------------------------------

  /** The frames sent to the panel, in order. */
  function Shows(t: seq<Event>): seq<seq<byte>> {
    if t == [] then []
    else Shows(t[..|t| - 1]) + (if t[|t| - 1].Show? then [t[|t| - 1].frame] else [])
  }

  /** What the buzzer is told, in order. */
  function AudioEvents(t: seq<Event>): seq<Event> {
    if t == [] then []
    else AudioEvents(t[..|t| - 1]) + (if t[|t| - 1].Freq? || t[|t| - 1].Duty? then [t[|t| - 1]] else [])
  }

  /** Both projections distribute over concatenation. */
  lemma {:induction false} ProjectAppend(a: seq<Event>, b: seq<Event>)
    ensures Shows(a + b) == Shows(a) + Shows(b)
    ensures AudioEvents(a + b) == AudioEvents(a) + AudioEvents(b)
    decreases |b|
  {
    if b == [] {
      assert a + b == a;
    } else {
      var n := |b| - 1;
      assert (a + b)[..|a + b| - 1] == a + b[..n];
      ProjectAppend(a, b[..n]);
      assert b[..n] + [b[n]] == b;
    }
  }

  /** A trace made only of buzzer commands. */
  predicate AudioOnly(t: seq<Event>) {
    forall i :: 0 <= i < |t| ==> t[i].Freq? || t[i].Duty?
  }

  lemma {:induction false} AudioOnlyProjections(t: seq<Event>)
    requires AudioOnly(t)
    ensures Shows(t) == [] && AudioEvents(t) == t
    decreases |t|
  {
    if t != [] {
      AudioOnlyProjections(t[..|t| - 1]);
      assert t[..|t| - 1] + [t[|t| - 1]] == t;
    }
  }

  lemma {:induction false} TickIsAudio(m: seq<byte>, a: Audio)
    requires a.pos <= |m|
    ensures AudioOnly(AudioTick(m, a).events)
  {
  }

  // ------------------------------------------------------------------
  // The note sequencer
  // ------------------------------------------------------------------

  /** `n` audio ticks in a row. */
  function TickN(m: seq<byte>, a: Audio, n: nat): (t: Tick)
    requires a.pos <= |m|
    ensures t.audio.pos <= |m|
    decreases n
  {
    if n == 0 then Tick(a, [])
    else
      var u := AudioTick(m, a);
      var r := TickN(m, u.audio, n - 1);
      Tick(r.audio, u.events + r.events)
  }

  /** Ticking n1 + n2 times is ticking n1 times, then n2 more. */
  lemma {:induction false} TickNAdd(m: seq<byte>, a: Audio, n1: nat, n2: nat)
    requires a.pos <= |m|
    ensures var t1 := TickN(m, a, n1); var t2 := TickN(m, t1.audio, n2);
      TickN(m, a, n1 + n2) == Tick(t2.audio, t1.events + t2.events)
    decreases n1
  {
    if n1 > 0 {
      var u := AudioTick(m, a);
      TickNAdd(m, u.audio, n1 - 1, n2);
      assert n1 + n2 - 1 == (n1 - 1) + n2;
    }
  }

  /** `e` repeated `n` times. */
  function Repeat(e: seq<Event>, n: nat): (r: seq<Event>)
    ensures |r| == n * |e|
  {
    if n == 0 then [] else e + Repeat(e, n - 1)
  }

  lemma {:induction false} RepeatSplit(e: seq<Event>, n1: nat, n2: nat)
    ensures Repeat(e, n1 + n2) == Repeat(e, n1) + Repeat(e, n2)
    decreases n1
  {
    if n1 > 0 {
      RepeatSplit(e, n1 - 1, n2);
      assert Repeat(e, n1 + n2) == e + Repeat(e, (n1 - 1) + n2);
      Associative(e, Repeat(e, n1 - 1), Repeat(e, n2));
    }
  }

  /** Without a melody, or with one too short to hold a record, the buzzer is told duty 0
      on every tick. */
  lemma {:induction false} SilentMelody(melody: Option<seq<byte>>, n: nat)
    requires melody.None? || |melody.value| < 4
    ensures Preload(melody) == Muted
    ensures TickN(MelodyData(melody), Muted, n) == Tick(Muted, Repeat([Duty(0)], n))
  {
    if n > 0 {
      SilentMelody(melody, n - 1);
    }
  }

  /** The audio state while note j of the melody sounds with `r` frames left. */
  function At(j: nat, note: Note, r: nat): Audio {
    Audio(true, 4 * (j + 1), note.freqX10, r)
  }

  /** A well-formed melody file: at least one record, and fewer than 4 stray bytes. */
  predicate MelodyFile(rs: seq<Note>, tail: seq<byte>) {
    Packable(rs) && |rs| >= 1 && |tail| < 4
  }

  /** The preload takes note 0. */
  lemma {:induction false} PreloadFirst(rs: seq<Note>, tail: seq<byte>)
    requires MelodyFile(rs, tail)
    ensures Preload(Some(NoteBytes(rs) + tail)) == At(0, rs[0], rs[0].frames)
  {
    ReadMelody(rs, tail, 0);
  }

  /** One tick of the sequencer on a melody file: while frames remain the same note
      sounds and one frame is used up; when none remain the next note is fetched, note 0
      after the last, and sounds at once unless it lasts zero frames, in which case the
      buzzer is left alone. */
  lemma {:induction false} MelodyTick(rs: seq<Note>, tail: seq<byte>, j: nat, r: nat)
    requires MelodyFile(rs, tail) && j < |rs|
    ensures var m := NoteBytes(rs) + tail;
      AudioTick(m, At(j, rs[j], r)) ==
        if r > 0 then Tick(At(j, rs[j], r - 1), ToneEvents(rs[j].freqX10))
        else
          var k := if j + 1 < |rs| then j + 1 else 0;
          if rs[k].frames > 0 then Tick(At(k, rs[k], rs[k].frames - 1), ToneEvents(rs[k].freqX10))
          else Tick(At(k, rs[k], 0), [])
  {
    var m := NoteBytes(rs) + tail;
    if r == 0 {
      var k := if j + 1 < |rs| then j + 1 else 0;
      ReadMelody(rs, tail, j + 1);
      if j + 1 == |rs| {
        ReadMelody(rs, tail, 0);
      }
      assert Fetch(m, 4 * (j + 1)) == At(k, rs[k], rs[k].frames);
    }
  }

  /** From note j with `r` frames left, each of the next `k <= r` ticks sounds that note. */
  lemma {:induction false} PlayPart(rs: seq<Note>, tail: seq<byte>, j: nat, r: nat, k: nat)
    requires MelodyFile(rs, tail) && j < |rs| && k <= r
    ensures TickN(NoteBytes(rs) + tail, At(j, rs[j], r), k) ==
      Tick(At(j, rs[j], r - k), Repeat(ToneEvents(rs[j].freqX10), k))
    decreases k
  {
    NoteBytesLayout(rs, 0);
    if k > 0 {
      MelodyTick(rs, tail, j, r);
      PlayPart(rs, tail, j, r - 1, k - 1);
    }
  }

  /** From note j with `r` frames left, the next `r` ticks sound that note `r` times. */
  lemma {:induction false} PlayOut(rs: seq<Note>, tail: seq<byte>, j: nat, r: nat)
    requires MelodyFile(rs, tail) && j < |rs|
    ensures TickN(NoteBytes(rs) + tail, At(j, rs[j], r), r) ==
      Tick(At(j, rs[j], 0), Repeat(ToneEvents(rs[j].freqX10), r))
  {
    PlayPart(rs, tail, j, r, r);
  }

  /** The melody as the buzzer hears it: each note's tone once per frame it lasts. */
  function Song(rs: seq<Note>): seq<Event> {
    if rs == [] then [] else Song(rs[..|rs| - 1]) + Repeat(ToneEvents(rs[|rs| - 1].freqX10), rs[|rs| - 1].frames)
  }

  /** Total frames the notes last. */
  function Frames(rs: seq<Note>): nat {
    if rs == [] then 0 else Frames(rs[..|rs| - 1]) + rs[|rs| - 1].frames
  }

  /** Notes that all last at least one frame. */
  predicate Audible(rs: seq<Note>) {
    forall j :: 0 <= j < |rs| ==> rs[j].frames >= 1
  }

  /** After the notes before i have played out, the sequencer rests on note i - 1 with
      no frames left. */
  lemma {:induction false} PlayPrefix(rs: seq<Note>, tail: seq<byte>, i: nat)
    requires MelodyFile(rs, tail) && Audible(rs) && 1 <= i <= |rs|
    ensures var m := NoteBytes(rs) + tail;
      TickN(m, Preload(Some(m)), Frames(rs[..i])) == Tick(At(i - 1, rs[i - 1], 0), Song(rs[..i]))
  {
    if i == 1 {
      PlayFirst(rs, tail);
    } else {
      PlayPrefix(rs, tail, i - 1);
      PlayNext(rs, tail, i - 1);
    }
  }

  /** The first note plays out from the preload. */
  lemma {:induction false} PlayFirst(rs: seq<Note>, tail: seq<byte>)
    requires MelodyFile(rs, tail)
    ensures var m := NoteBytes(rs) + tail;
      TickN(m, Preload(Some(m)), Frames(rs[..1])) == Tick(At(0, rs[0], 0), Song(rs[..1]))
  {
    NoteBytesLayout(rs, 0);
    PreloadFirst(rs, tail);
    var one := rs[..1];
    assert one[..0] == [] && one[0] == rs[0];
    assert Frames(one) == rs[0].frames;
    assert Song(one) == Repeat(ToneEvents(rs[0].freqX10), rs[0].frames);
    PlayOut(rs, tail, 0, rs[0].frames);
  }

  /** Two stretches of ticks, the second starting where the first ends, make one. */
  lemma {:induction false} TickNChain(m: seq<byte>, a: Audio, n1: nat, b: Audio, e1: seq<Event>,
                                      n2: nat, c: Audio, e2: seq<Event>)
    requires a.pos <= |m| && TickN(m, a, n1) == Tick(b, e1) && TickN(m, b, n2) == Tick(c, e2)
    ensures TickN(m, a, n1 + n2) == Tick(c, e1 + e2)
  {
    TickNAdd(m, a, n1, n2);
  }

  /** One tick, then n more, is n + 1 ticks. */
  lemma {:induction false} TickThen(m: seq<byte>, a: Audio, b: Audio, e: seq<Event>, n: nat, c: Audio, es: seq<Event>)
    requires a.pos <= |m| && AudioTick(m, a) == Tick(b, e) && TickN(m, b, n) == Tick(c, es)
    ensures TickN(m, a, n + 1) == Tick(c, e + es)
  {
  }

  /** A note that has run out is followed by the next one, which sounds at once. */
  lemma {:induction false} NextRecord(rs: seq<Note>, tail: seq<byte>, j: nat)
    requires MelodyFile(rs, tail) && 1 <= j < |rs| && rs[j].frames >= 1
    ensures AudioTick(NoteBytes(rs) + tail, At(j - 1, rs[j - 1], 0)) ==
      Tick(At(j, rs[j], rs[j].frames - 1), ToneEvents(rs[j].freqX10))
  {
    MelodyTick(rs, tail, j - 1, 0);
  }

  /** Resting on note j - 1 with no frames left, the next note sounds for its whole length. */
  lemma {:induction false} NextNote(rs: seq<Note>, tail: seq<byte>, j: nat)
    requires MelodyFile(rs, tail) && 1 <= j < |rs| && rs[j].frames >= 1
    ensures TickN(NoteBytes(rs) + tail, At(j - 1, rs[j - 1], 0), rs[j].frames) ==
      Tick(At(j, rs[j], 0), Repeat(ToneEvents(rs[j].freqX10), rs[j].frames))
  {
    var m := NoteBytes(rs) + tail;
    var f := rs[j].frames;
    var e := ToneEvents(rs[j].freqX10);
    NextRecord(rs, tail, j);
    PlayOut(rs, tail, j, f - 1);
    TickThen(m, At(j - 1, rs[j - 1], 0), At(j, rs[j], f - 1), e, f - 1, At(j, rs[j], 0), Repeat(e, f - 1));
  }

  /** Once the notes before j have played out, note j plays out as well. */
  lemma {:induction false} PlayNext(rs: seq<Note>, tail: seq<byte>, j: nat)
    requires MelodyFile(rs, tail) && Audible(rs) && 1 <= j < |rs|
    requires var m := NoteBytes(rs) + tail;
      TickN(m, Preload(Some(m)), Frames(rs[..j])) == Tick(At(j - 1, rs[j - 1], 0), Song(rs[..j]))
    ensures var m := NoteBytes(rs) + tail;
      TickN(m, Preload(Some(m)), Frames(rs[..j + 1])) == Tick(At(j, rs[j], 0), Song(rs[..j + 1]))
  {
    var m := NoteBytes(rs) + tail;
    var f := rs[j].frames;
    var e := Repeat(ToneEvents(rs[j].freqX10), f);
    assert rs[..j + 1][..j] == rs[..j];
    assert Frames(rs[..j + 1]) == Frames(rs[..j]) + f;
    assert Song(rs[..j + 1]) == Song(rs[..j]) + e;
    NextNote(rs, tail, j);
    TickNChain(m, Preload(Some(m)), Frames(rs[..j]), At(j - 1, rs[j - 1], 0), Song(rs[..j]), f, At(j, rs[j], 0), e);
  }

  /** A melody whose notes all last a frame or more plays in full, note by note, and then
      starts again from note 0. */
  lemma {:induction false} MelodyLoops(rs: seq<Note>, tail: seq<byte>)
    requires MelodyFile(rs, tail) && Audible(rs)
    ensures var m := NoteBytes(rs) + tail;
      var t := TickN(m, Preload(Some(m)), Frames(rs));
      t.events == Song(rs) && AudioTick(m, t.audio) == Tick(At(0, rs[0], rs[0].frames - 1), ToneEvents(rs[0].freqX10))
  {
    PlayPrefix(rs, tail, |rs|);
    assert rs[..|rs|] == rs;
    MelodyTick(rs, tail, |rs| - 1, 0);
  }

  /** A two-note melody plays the first note, then the second. */
  lemma {:induction false} TwoNotes(rs: seq<Note>)
    requires |rs| == 2
    ensures Frames(rs) == rs[0].frames + rs[1].frames
    ensures Song(rs) == Repeat(ToneEvents(rs[0].freqX10), rs[0].frames) + Repeat(ToneEvents(rs[1].freqX10), rs[1].frames)
  {
    var r0 := Repeat(ToneEvents(rs[0].freqX10), rs[0].frames);
    assert rs[..|rs| - 1] == [rs[0]];
    assert [rs[0]][..0] == [];
    assert Frames([rs[0]]) == rs[0].frames;
    assert Song([rs[0]]) == [] + r0 == r0;
  }

  /** Resting on the last note with no frames left, the first note sounds again. */
  lemma {:induction false} WrapAround(rs: seq<Note>, tail: seq<byte>, n: nat)
    requires MelodyFile(rs, tail) && 1 <= n <= rs[0].frames
    ensures TickN(NoteBytes(rs) + tail, At(|rs| - 1, rs[|rs| - 1], 0), n) ==
      Tick(At(0, rs[0], rs[0].frames - n), Repeat(ToneEvents(rs[0].freqX10), n))
  {
    var m := NoteBytes(rs) + tail;
    var e := ToneEvents(rs[0].freqX10);
    MelodyTick(rs, tail, |rs| - 1, 0);
    PlayPart(rs, tail, 0, rs[0].frames - 1, n - 1);
    TickThen(m, At(|rs| - 1, rs[|rs| - 1], 0), At(0, rs[0], rs[0].frames - 1), e, n - 1,
      At(0, rs[0], rs[0].frames - n), Repeat(e, n - 1));
  }

  /** After the whole melody the first note sounds again, for up to its whole length. */
  lemma {:induction false} MelodyWraps(rs: seq<Note>, tail: seq<byte>, n: nat)
    requires MelodyFile(rs, tail) && Audible(rs) && 1 <= n <= rs[0].frames
    ensures var m := NoteBytes(rs) + tail;
      TickN(m, Preload(Some(m)), Frames(rs) + n).events == Song(rs) + Repeat(ToneEvents(rs[0].freqX10), n)
  {
    var m := NoteBytes(rs) + tail;
    PlayPrefix(rs, tail, |rs|);
    assert rs[..|rs|] == rs;
    WrapAround(rs, tail, n);
    TickNChain(m, Preload(Some(m)), Frames(rs), At(|rs| - 1, rs[|rs| - 1], 0), Song(rs),
      n, At(0, rs[0], rs[0].frames - n), Repeat(ToneEvents(rs[0].freqX10), n));
  }

  /** A two-note melody, e.g. `[(4400, 5), (0, 5)]`: the first note for its length, the
      second for its length, then the first again (440 Hz five times, silence five times,
      440 Hz twice for n = 2). */
  lemma {:induction false} TwoNoteExample(rs: seq<Note>, n: nat)
    requires |rs| == 2 && MelodyFile(rs, []) && Audible(rs) && 1 <= n <= rs[0].frames
    ensures var m := NoteBytes(rs);
      TickN(m, Preload(Some(m)), rs[0].frames + rs[1].frames + n).events ==
        Repeat(ToneEvents(rs[0].freqX10), rs[0].frames) + Repeat(ToneEvents(rs[1].freqX10), rs[1].frames) +
        Repeat(ToneEvents(rs[0].freqX10), n)
  {
    assert NoteBytes(rs) + [] == NoteBytes(rs);
    MelodyWraps(rs, [], n);
    TwoNotes(rs);
  }

  /** The melody `[(4400, 5), (0, 5)]`, twelve ticks from the preload: 440 Hz for five
      frames, silence for five, then 440 Hz again for two. */
  lemma {:induction false} A440Example(rs: seq<Note>, n: nat)
    requires |rs| == 2 && rs[0] == Note(4400, 5) && rs[1] == Note(0, 5) && n == 2
    ensures var m := NoteBytes(rs);
      TickN(m, Preload(Some(m)), rs[0].frames + rs[1].frames + n).events ==
        Repeat([Freq(440), Duty(BUZZER_DUTY)], 5) + Repeat([Duty(0)], 5) + Repeat([Freq(440), Duty(BUZZER_DUTY)], 2)
  {
    assert Packable(rs) by {
      forall k | 0 <= k < |rs| ensures rs[k].freqX10 < 0x1_0000 && rs[k].frames < 0x1_0000 {
        assert k == 0 || k == 1;
      }
    }
    assert Audible(rs) by {
      forall k | 0 <= k < |rs| ensures rs[k].frames >= 1 {
        assert k == 0 || k == 1;
      }
    }
    assert 4400 / 10 == 440;
    assert ToneEvents(rs[0].freqX10) == [Freq(440), Duty(BUZZER_DUTY)];
    assert ToneEvents(rs[1].freqX10) == [Duty(0)];
    TwoNoteExample(rs, n);
  }

  // ------------------------------------------------------------------
  // The two buffers
  // ------------------------------------------------------------------

  /** An iteration that reads a whole payload swaps the roles, leaves the buffer it shows
      as it was, decodes into the other one, and shows the display buffer before pacing;
      one that does not only moves the cursor. */
  lemma {:induction false} AdvanceRoles(cfg: Config, s: State)
    requires Inside(cfg, s)
    ensures var r := Advance(cfg, s); var rec := ReadRecord(cfg.video, s.vpos);
      (r.Next? <==> rec.Payload?) &&
      (r.Next? ==>
        r.s.displayIs2 == !s.displayIs2 && DecodeBuffer(r.s) == DisplayBuffer(s) &&
        DisplayBuffer(r.s) == Inflated(DecodeBuffer(s), cfg.inflate(rec.payload)) &&
        |r.s.trace| > |s.trace| && r.s.trace[..|s.trace| + 1] == s.trace + [Show(DisplayBuffer(s))] &&
        r.s.audio == s.audio) &&
      (r.Stop? ==> r.s == s.(vpos := rec.pos))
  {
    var r := Advance(cfg, s);
    if r.Next? {
      assert r.s.trace[..|s.trace| + 1] == s.trace + [Show(DisplayBuffer(s))];
    }
  }

  // ------------------------------------------------------------------
  // One cycle over a well-formed container: display lags decode by one
  // ------------------------------------------------------------------

  /** A frame decoded from `r` when the decoder covers the whole buffer or fails. */
  function Frame(r: Option<seq<byte>>): (f: seq<byte>)
    ensures |f| == MONO_SIZE
  {
    Inflated(Zeros(MONO_SIZE), r)
  }

  /** The decoder either fails or produces at least a whole frame. */
  predicate Covers(r: Option<seq<byte>>) {
    r.None? || |r.value| >= MONO_SIZE
  }

  /** Decoding a covering result does not depend on what the buffer held. */
  lemma {:induction false} CoveringDecode(buf: seq<byte>, r: Option<seq<byte>>)
    requires |buf| == MONO_SIZE && Covers(r)
    ensures Inflated(buf, r) == Frame(r)
  {
    var a, b := Inflated(buf, r), Frame(r);
    assert forall i :: 0 <= i < MONO_SIZE ==> a[i] == b[i];
  }

  /** The frames of the first `n` records. */
  function Decoded(inflate: seq<byte> -> Option<seq<byte>>, ps: seq<seq<byte>>, n: nat): (fs: seq<seq<byte>>)
    requires n <= |ps|
    ensures |fs| == n
  {
    if n == 0 then [] else Decoded(inflate, ps, n - 1) + [Frame(inflate(ps[n - 1]))]
  }

  /** The video is the container of `ps`, at least one record long, every payload fits the
      scratch buffer and every decode covers the buffer. */
  predicate WellFormed(video: seq<byte>, inflate: seq<byte> -> Option<seq<byte>>, ps: seq<seq<byte>>) {
    Framable(ps) && |ps| >= 1 && video == Container(ps) &&
    (forall k :: 0 <= k < |ps| ==> |ps[k]| <= MAX_COMP_SIZE) &&
    (forall k :: 0 <= k < |ps| ==> Covers(inflate(ps[k])))
  }

  /** The loop state at the top of iteration k - 1 (1 <= k): record k is next, frame k - 1
      waits in the display buffer, k - 1 audio ticks and k - 1 shows have happened. */
  ghost predicate AtRecord(cfg: Config, ps: seq<seq<byte>>, a0: Audio, s: State, k: nat)
    requires Framable(ps) && a0.pos <= |cfg.melody|
  {
    1 <= k <= |ps| && Inside(cfg, s) &&
    s.vpos == Offset(ps, k) && s.iter == k - 1 &&
    DisplayBuffer(s) == Frame(cfg.inflate(ps[k - 1])) &&
    s.audio == TickN(cfg.melody, a0, k - 1).audio &&
    Shows(s.trace) == Decoded(cfg.inflate, ps, k - 1) &&
    AudioEvents(s.trace) == TickN(cfg.melody, a0, k - 1).events
  }

  /** One more tick appends that tick's commands. */
  lemma {:induction false} TickNSucc(m: seq<byte>, a0: Audio, n: nat)
    requires a0.pos <= |m|
    ensures var t := TickN(m, a0, n); var u := AudioTick(m, t.audio);
      TickN(m, a0, n + 1) == Tick(u.audio, t.events + u.events)
  {
    var t := TickN(m, a0, n);
    var u := AudioTick(m, t.audio);
    TickNAdd(m, a0, n, 1);
    assert TickN(m, t.audio, 1) == Tick(u.audio, u.events + []);
    assert u.events + [] == u.events;
  }

  /** An audio tick appends to the trace only buzzer commands. */
  lemma {:induction false} TickedProjections(cfg: Config, s: State)
    requires Inside(cfg, s)
    ensures Shows(Ticked(cfg, s).trace) == Shows(s.trace)
    ensures AudioEvents(Ticked(cfg, s).trace) == AudioEvents(s.trace) + AudioTick(cfg.melody, s.audio).events
  {
    var u := AudioTick(cfg.melody, s.audio);
    TickIsAudio(cfg.melody, s.audio);
    AudioOnlyProjections(u.events);
    ProjectAppend(s.trace, u.events);
  }

  /** What a shown frame and the pacing sleep add to the two projections. */
  lemma {:induction false} ShowProjections(t: seq<Event>, f: seq<byte>, wait: nat)
    ensures Shows(t + [Show(f)] + SleepEvents(wait)) == Shows(t) + [f]
    ensures AudioEvents(t + [Show(f)] + SleepEvents(wait)) == AudioEvents(t)
  {
    var z := SleepEvents(wait);
    assert [Show(f)][..0] == [];
    ProjectAppend(t, [Show(f)]);
    if z != [] {
      assert z[..0] == [];
    }
    ProjectAppend(t + [Show(f)], z);
  }

  /** The video part of an iteration at record k < N: payload k is decoded into the decode
      buffer, the frame in the display buffer is shown, and the cursor moves to record k + 1. */
  lemma {:induction false} AdvanceAt(cfg: Config, ps: seq<seq<byte>>, s: State, k: nat)
    requires WellFormed(cfg.video, cfg.inflate, ps) && 1 <= k < |ps| && Inside(cfg, s)
    requires s.vpos == Offset(ps, k)
    ensures var r := Advance(cfg, s);
      r.Next? && r.s.vpos == Offset(ps, k + 1) && r.s.iter == s.iter + 1 && r.s.audio == s.audio &&
      DisplayBuffer(r.s) == Frame(cfg.inflate(ps[k])) &&
      Shows(r.s.trace) == Shows(s.trace) + [DisplayBuffer(s)] &&
      AudioEvents(r.s.trace) == AudioEvents(s.trace)
  {
    ReadContainer(ps, k);
    CoveringDecode(DecodeBuffer(s), cfg.inflate(ps[k]));
    ShowProjections(s.trace, DisplayBuffer(s), Pace(cfg.elapsed(s.iter)));
  }

  /** The video part at record N: the header read finds the end of the stream. */
  lemma {:induction false} AdvanceAtEnd(cfg: Config, ps: seq<seq<byte>>, s: State)
    requires WellFormed(cfg.video, cfg.inflate, ps) && Inside(cfg, s) && s.vpos == Offset(ps, |ps|)
    ensures Advance(cfg, s) == Stop(s.(vpos := |cfg.video|), EndOfVideo)
  {
    ReadContainer(ps, |ps|);
  }

  /** One iteration from record k < N: the next record is decoded, the frame waiting in the
      display buffer is shown, and the state is at record k + 1. */
  lemma {:induction false} IterationAt(cfg: Config, ps: seq<seq<byte>>, a0: Audio, s: State, k: nat)
    requires WellFormed(cfg.video, cfg.inflate, ps) && a0.pos <= |cfg.melody| && AtRecord(cfg, ps, a0, s, k)
    requires k < |ps|
    ensures var r := Step(cfg, s); r.Next? && AtRecord(cfg, ps, a0, r.s, k + 1)
  {
    TickNSucc(cfg.melody, a0, k - 1);
    TickedProjections(cfg, s);
    AdvanceAt(cfg, ps, Ticked(cfg, s), k);
  }

  /** The iteration at record N: the audio tick runs and the loop ends at the end of the video. */
  lemma {:induction false} IterationAtEnd(cfg: Config, ps: seq<seq<byte>>, a0: Audio, s: State)
    requires WellFormed(cfg.video, cfg.inflate, ps) && a0.pos <= |cfg.melody| && AtRecord(cfg, ps, a0, s, |ps|)
    ensures var r := Step(cfg, s);
      r.Stop? && r.why == EndOfVideo &&
      Shows(r.s.trace) == Decoded(cfg.inflate, ps, |ps| - 1) &&
      AudioEvents(r.s.trace) == TickN(cfg.melody, a0, |ps|).events
  {
    TickNSucc(cfg.melody, a0, |ps| - 1);
    TickedProjections(cfg, s);
    AdvanceAtEnd(cfg, ps, Ticked(cfg, s));
  }

  /** The inner loop from record k runs to the end of the container. */
  lemma {:induction false} LoopFrom(cfg: Config, ps: seq<seq<byte>>, a0: Audio, s: State, k: nat)
    requires WellFormed(cfg.video, cfg.inflate, ps) && a0.pos <= |cfg.melody| && AtRecord(cfg, ps, a0, s, k)
    ensures PlayLoop(cfg, s).1 == EndOfVideo
    ensures Shows(PlayLoop(cfg, s).0.trace) == Decoded(cfg.inflate, ps, |ps| - 1)
    ensures AudioEvents(PlayLoop(cfg, s).0.trace) == TickN(cfg.melody, a0, |ps|).events
    decreases |ps| - k
  {
    if k < |ps| {
      IterationAt(cfg, ps, a0, s, k);
      LoopFrom(cfg, ps, a0, Step(cfg, s).s, k + 1);
    } else {
      IterationAtEnd(cfg, ps, a0, s);
    }
  }

  /** What the end of a pass adds to the two projections: the buzzer is muted. */
  lemma {:induction false} MuteProjections(t: seq<Event>, wait: nat)
    ensures Shows(t + [Duty(0), Sleep(wait)]) == Shows(t)
    ensures AudioEvents(t + [Duty(0), Sleep(wait)]) == AudioEvents(t) + [Duty(0)]
  {
    var u := t + [Duty(0), Sleep(wait)];
    assert u[..|u| - 1] == t + [Duty(0)];
    assert (t + [Duty(0)])[..|t|] == t;
  }

  /** The state after the first record is decoded synchronously into `buf2`, which is
      shown first: the loop starts at record 1. */
  lemma {:induction false} StartAt(ps: seq<seq<byte>>, melody: Option<seq<byte>>,
                                   inflate: seq<byte> -> Option<seq<byte>>, elapsed: nat -> int,
                                   fb1: seq<byte>, fb2: seq<byte>)
    requires Framable(ps) && WellFormed(Container(ps), inflate, ps) && |fb1| == MONO_SIZE && |fb2| == MONO_SIZE
    ensures ReadRecord(Container(ps), 0) == Payload(ps[0], Offset(ps, 1))
    ensures AtRecord(Config(Container(ps), MelodyData(melody), inflate, elapsed), ps, Preload(melody),
                     State(Offset(ps, 1), Preload(melody), true, fb1, Inflated(fb2, inflate(ps[0])), 0, []), 1)
  {
    assert ps[..0] == [];
    ReadContainer(ps, 0);
    CoveringDecode(fb2, inflate(ps[0]));
  }

  /** One pass over a container of N well-formed records: frame 0 is decoded before the
      loop and shown first, frame k - 1 is shown in iteration k, so N - 1 frames reach the
      panel; N audio ticks run and the pass ends with the buzzer muted; the outer loop
      goes round again. */
  lemma {:induction false} CycleLagsByOne(ps: seq<seq<byte>>, melody: Option<seq<byte>>,
                                          inflate: seq<byte> -> Option<seq<byte>>, elapsed: nat -> int,
                                          fb1: seq<byte>, fb2: seq<byte>)
    requires Framable(ps) && WellFormed(Container(ps), inflate, ps) && |fb1| == MONO_SIZE && |fb2| == MONO_SIZE
    ensures var r := Cycle(Some(Container(ps)), melody, inflate, elapsed, fb1, fb2);
      r.outcome == Restart &&
      Shows(r.trace) == Decoded(inflate, ps, |ps| - 1) &&
      AudioEvents(r.trace) == TickN(MelodyData(melody), Preload(melody), |ps|).events + [Duty(0)]
  {
    var cfg := Config(Container(ps), MelodyData(melody), inflate, elapsed);
    var a0 := Preload(melody);
    var start := State(Offset(ps, 1), a0, true, fb1, Inflated(fb2, inflate(ps[0])), 0, []);
    StartAt(ps, melody, inflate, elapsed, fb1, fb2);
    CycleOnPayload(Container(ps), melody, inflate, elapsed, fb1, fb2, ps[0], Offset(ps, 1));
    LoopFrom(cfg, ps, a0, start, 1);
    MuteProjections(PlayLoop(cfg, start).0.trace, RESTART_PAUSE_MS);
  }

  // ------------------------------------------------------------------
  // The outer loop
  // ------------------------------------------------------------------

  /** The video cannot be played: it is missing or its first record does not read whole. */
  predicate Unplayable(video: Option<seq<byte>>) {
    video.None? || !ReadRecord(video.value, 0).Payload?
  }

  /** Every pass keeps the buffer sizes, and halts, with the buffers untouched and nothing
      sent, exactly when `stuck` holds. */
  ghost predicate HaltsWhen(pass: Pass, stuck: bool) {
    forall fb1, fb2, c :: |fb1| == MONO_SIZE && |fb2| == MONO_SIZE ==>
      var r := pass(fb1, fb2, c);
      |r.fb1| == MONO_SIZE && |r.fb2| == MONO_SIZE && (r.outcome == Halt <==> stuck) &&
      (r.outcome == Halt ==> r.fb1 == fb1 && r.fb2 == fb2 && r.trace == [])
  }

  /** The program's passes halt exactly on an unplayable video. */
  lemma {:induction false} CyclePassHalts(video: Option<seq<byte>>, melody: Option<seq<byte>>,
                                          inflate: seq<byte> -> Option<seq<byte>>, clock: nat -> nat -> int)
    ensures HaltsWhen(CyclePass(video, melody, inflate, clock), Unplayable(video))
  {
    var pass := CyclePass(video, melody, inflate, clock);
    forall fb1, fb2, c | |fb1| == MONO_SIZE && |fb2| == MONO_SIZE
      ensures var r := pass(fb1, fb2, c);
        |r.fb1| == MONO_SIZE && |r.fb2| == MONO_SIZE && (r.outcome == Halt <==> Unplayable(video)) &&
        (r.outcome == Halt ==> r.fb1 == fb1 && r.fb2 == fb2 && r.trace == [])
    {
      assert pass(fb1, fb2, c) == Cycle(video, melody, inflate, clock(c), fb1, fb2);
    }
  }

  /** A run of passes that halt exactly when `stuck` holds halts exactly when it is given a
      pass and `stuck` holds, and then in its first pass. */
  lemma {:induction false} RunsHaltWhen(pass: Pass, stuck: bool, fb1: seq<byte>, fb2: seq<byte>, cycles: nat, c: nat)
    requires HaltsWhen(pass, stuck) && |fb1| == MONO_SIZE && |fb2| == MONO_SIZE
    ensures var r := Runs(pass, fb1, fb2, cycles, c);
      (r.outcome == Halt <==> cycles >= 1 && stuck) &&
      (r.outcome == Halt ==> r.fb1 == fb1 && r.fb2 == fb2 && r.trace == []) &&
      |r.fb1| == MONO_SIZE && |r.fb2| == MONO_SIZE
    decreases cycles
  {
    if cycles > 0 {
      var r := pass(fb1, fb2, c);
      if r.outcome == Restart {
        RunsHaltWhen(pass, stuck, r.fb1, r.fb2, cycles - 1, c + 1);
      }
    }
  }

  /** The outer loop halts exactly when the video is unplayable, and then in its first pass,
      before anything reaches the buzzer or the panel and with the buffers untouched;
      otherwise every pass restarts and the loop goes on for as many passes as it is given. */
  lemma {:induction false} RunsHalt(video: Option<seq<byte>>, melody: Option<seq<byte>>,
                                    inflate: seq<byte> -> Option<seq<byte>>, clock: nat -> nat -> int,
                                    fb1: seq<byte>, fb2: seq<byte>, cycles: nat, c: nat)
    requires |fb1| == MONO_SIZE && |fb2| == MONO_SIZE
    ensures var r := Runs(CyclePass(video, melody, inflate, clock), fb1, fb2, cycles, c);
      (r.outcome == Halt <==> cycles >= 1 && Unplayable(video)) &&
      (r.outcome == Halt ==> r.fb1 == fb1 && r.fb2 == fb2 && r.trace == []) &&
      |r.fb1| == MONO_SIZE && |r.fb2| == MONO_SIZE
  {
    CyclePassHalts(video, melody, inflate, clock);
    RunsHaltWhen(CyclePass(video, melody, inflate, clock), Unplayable(video), fb1, fb2, cycles, c);
  }

  /** Every pass restarts, keeps the buffer sizes and ends with the buzzer muted and the
      restart pause. */
  ghost predicate Restarting(pass: Pass) {
    forall fb1, fb2, c :: |fb1| == MONO_SIZE && |fb2| == MONO_SIZE ==>
      var r := pass(fb1, fb2, c);
      r.outcome == Restart && |r.fb1| == MONO_SIZE && |r.fb2| == MONO_SIZE &&
      |r.trace| >= 2 && r.trace[|r.trace| - 2..] == [Duty(0), Sleep(RESTART_PAUSE_MS)]
  }

  /** The program's passes over a playable video all restart. */
  lemma {:induction false} CyclePassRestarts(video: Option<seq<byte>>, melody: Option<seq<byte>>,
                                             inflate: seq<byte> -> Option<seq<byte>>, clock: nat -> nat -> int)
    requires !Unplayable(video)
    ensures Restarting(CyclePass(video, melody, inflate, clock))
  {
    var pass := CyclePass(video, melody, inflate, clock);
    forall fb1, fb2, c | |fb1| == MONO_SIZE && |fb2| == MONO_SIZE
      ensures var r := pass(fb1, fb2, c);
        r.outcome == Restart && |r.fb1| == MONO_SIZE && |r.fb2| == MONO_SIZE &&
        |r.trace| >= 2 && r.trace[|r.trace| - 2..] == [Duty(0), Sleep(RESTART_PAUSE_MS)]
    {
      assert pass(fb1, fb2, c) == Cycle(video, melody, inflate, clock(c), fb1, fb2);
    }
  }

  /** A run of restarting passes never halts and ends with the buzzer muted and the
      restart pause. */
  lemma {:induction false} RunsEndMuted(pass: Pass, fb1: seq<byte>, fb2: seq<byte>, cycles: nat, c: nat)
    requires Restarting(pass) && |fb1| == MONO_SIZE && |fb2| == MONO_SIZE && cycles >= 1
    ensures var r := Runs(pass, fb1, fb2, cycles, c);
      r.outcome == Restart && |r.trace| >= 2 && r.trace[|r.trace| - 2..] == [Duty(0), Sleep(RESTART_PAUSE_MS)]
    decreases cycles
  {
    var r := pass(fb1, fb2, c);
    assert r.outcome == Restart && |r.fb1| == MONO_SIZE && |r.fb2| == MONO_SIZE;
    var rest := Runs(pass, r.fb1, r.fb2, cycles - 1, c + 1);
    assert Runs(pass, fb1, fb2, cycles, c) == CycleResult(rest.outcome, rest.fb1, rest.fb2, r.trace + rest.trace);
    if cycles > 1 {
      RunsEndMuted(pass, r.fb1, r.fb2, cycles - 1, c + 1);
      EndsWith(r.trace, rest.trace, [Duty(0), Sleep(RESTART_PAUSE_MS)]);
    } else {
      assert r.trace + rest.trace == r.trace;
    }
  }

  lemma {:induction false} EndsWith<T>(a: seq<T>, b: seq<T>, e: seq<T>)
    requires |e| <= |b| && b[|b| - |e|..] == e
    ensures (a + b)[|a + b| - |e|..] == e
  {
    assert (a + b)[|a + b| - |e|..] == b[|b| - |e|..];
  }
}
