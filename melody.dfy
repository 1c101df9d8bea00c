/** The offline melody encoder: MIDI note events are paired into sounding segments, a
    per-frame array is filled with the highest frequency sounding in each frame, the array
    is run-length encoded, and each run goes out as one `<HH` record of the melody file the
    player reads.

    Times are frame indices (`int(t * fps)` is taken as given, and it is monotone, so the
    time-sorted events are frame-sorted too); the equal-temperament frequency of a note
    number and the `round(freq * 10)` step are input functions. */
module MelodyEncoder {
  import opened Bytes
  import opened Player
  import PlayerFacts

  /** A note-on (`on`) or note-off of a MIDI note number, at a frame. */
  datatype NoteEvent = NoteEvent(frame: nat, note: nat, on: bool)

  /** A note that sounded from frame `start` to frame `end`. */
  datatype Segment = Segment(start: nat, end: nat, note: nat)

  /** The `active` dictionary (note number to start) and the segments found so far. */
  datatype Pairing = Pairing(active: map<nat, nat>, segments: seq<Segment>)

  predicate Sorted(events: seq<NoteEvent>) {
    forall i, j :: 0 <= i < j < |events| ==> events[i].frame <= events[j].frame
  }

  // ------------------------------------------------------------------
  // Pairing note-on and note-off events
  // ------------------------------------------------------------------

  /** One event of the pairing loop: a note-on opens its note unless it is open already;
      a note-off closes an open note into a segment and is ignored otherwise. */
  function PairStep(p: Pairing, e: NoteEvent): (r: Pairing)
    ensures p.segments <= r.segments && |r.segments| <= |p.segments| + 1
    ensures e.on ==> r.segments == p.segments
  {
    if e.on then
      if e.note in p.active then p else p.(active := p.active[e.note := e.frame])
    else if e.note in p.active then
      Pairing(p.active - {e.note}, p.segments + [Segment(p.active[e.note], e.frame, e.note)])
    else p
  }

  /** The state after the events, from an empty dictionary and no segments. */
  function Paired(events: seq<NoteEvent>): (r: Pairing)
    ensures |r.segments| <= |events|
  {
    if events == [] then Pairing(map[], [])
    else PairStep(Paired(events[..|events| - 1]), events[|events| - 1])
  }

  /** The pairing loop over the sorted events. */
  method PairSegments(events: seq<NoteEvent>) returns (segments: seq<Segment>)
    ensures segments == Paired(events).segments
  {
    var active: map<nat, nat> := map[];
    segments := [];
    var i := 0;
    while i < |events|
      invariant i <= |events|
      invariant Pairing(active, segments) == Paired(events[..i])
    {
      var e := events[i];
      assert events[..i + 1][..i] == events[..i];
      if e.on {
        if e.note !in active {
          active := active[e.note := e.frame];
        }
      } else {
        if e.note in active {
          var start := active[e.note];
          active := active - {e.note};
          segments := segments + [Segment(start, e.frame, e.note)];
        }
      }
      i := i + 1;
    }
    assert events[..|events|] == events;
  }

  /** A note-on for a note already sounding changes nothing, so its earliest start is kept. */
  lemma {:induction false} RepeatedOnIgnored(events: seq<NoteEvent>, e: NoteEvent)
    requires e.on && e.note in Paired(events).active
    ensures Paired(events + [e]) == Paired(events)
  {
    assert (events + [e])[..|events|] == events;
  }

  /** A note-off for a note that is not sounding changes nothing. */
  lemma {:induction false} StrayOffIgnored(events: seq<NoteEvent>, e: NoteEvent)
    requires !e.on && e.note !in Paired(events).active
    ensures Paired(events + [e]) == Paired(events)
  {
    assert (events + [e])[..|events|] == events;
  }

  /** A note-on for a note that is not sounding starts it at the event's frame and adds
      no segment. */
  lemma {:induction false} OnOpens(events: seq<NoteEvent>, e: NoteEvent)
    requires e.on && e.note !in Paired(events).active
    ensures Paired(events + [e]).active == Paired(events).active[e.note := e.frame]
    ensures Paired(events + [e]).segments == Paired(events).segments
  {
    assert (events + [e])[..|events|] == events;
  }

  /** A note-off for a sounding note adds exactly one segment, from the note's start to
      the event, and the note stops sounding. */
  lemma {:induction false} OffCloses(events: seq<NoteEvent>, e: NoteEvent)
    requires !e.on && e.note in Paired(events).active
    ensures var p, q := Paired(events), Paired(events + [e]);
      e.note !in q.active &&
      q.segments == p.segments + [Segment(p.active[e.note], e.frame, e.note)]
  {
    assert (events + [e])[..|events|] == events;
  }

  /** Every sounding note was opened by a note-on among the events, and every segment
      was opened by a note-on and closed by a later note-off of its note. */
  ghost predicate Traced(events: seq<NoteEvent>, p: Pairing) {
    (forall n :: n in p.active ==>
       exists j :: 0 <= j < |events| && events[j] == NoteEvent(p.active[n], n, true)) &&
    (forall k :: 0 <= k < |p.segments| ==>
       exists j, i :: 0 <= j < i < |events| &&
         events[j] == NoteEvent(p.segments[k].start, p.segments[k].note, true) &&
         events[i] == NoteEvent(p.segments[k].end, p.segments[k].note, false))
  }

  lemma {:induction false} PairedTraced(events: seq<NoteEvent>)
    ensures Traced(events, Paired(events))
  {
    if events != [] {
      var m := |events| - 1;
      var front, e := events[..m], events[m];
      PairedTraced(front);
      var p0, p := Paired(front), Paired(events);
      assert p == PairStep(p0, e);
      forall n | n in p.active
        ensures exists j :: 0 <= j < |events| && events[j] == NoteEvent(p.active[n], n, true)
      {
        if n in p0.active && p.active[n] == p0.active[n] {
          var j :| 0 <= j < |front| && front[j] == NoteEvent(p0.active[n], n, true);
          assert events[j] == front[j];
        } else {
          assert events[m] == NoteEvent(p.active[n], n, true);
        }
      }
      forall k | 0 <= k < |p.segments|
        ensures exists j, i :: (0 <= j < i < |events| &&
          events[j] == NoteEvent(p.segments[k].start, p.segments[k].note, true) &&
          events[i] == NoteEvent(p.segments[k].end, p.segments[k].note, false))
      {
        if k < |p0.segments| {
          assert p.segments[k] == p0.segments[k];
          var j, i :| 0 <= j < i < |front| &&
            front[j] == NoteEvent(p0.segments[k].start, p0.segments[k].note, true) &&
            front[i] == NoteEvent(p0.segments[k].end, p0.segments[k].note, false);
          assert events[j] == front[j] && events[i] == front[i];
        } else {
          var s := p.segments[k];
          assert s == Segment(p0.active[e.note], e.frame, e.note);
          var j :| 0 <= j < |front| && front[j] == NoteEvent(p0.active[e.note], e.note, true);
          assert events[j] == front[j] && events[m] == NoteEvent(s.end, s.note, false);
        }
      }
    }
  }

  /** On time-sorted events every segment starts no later than it ends. */
  lemma {:induction false} SegmentsOrdered(events: seq<NoteEvent>)
    requires Sorted(events)
    ensures forall k :: 0 <= k < |Paired(events).segments| ==>
      Paired(events).segments[k].start <= Paired(events).segments[k].end
  {
    PairedTraced(events);
    var segs := Paired(events).segments;
    forall k | 0 <= k < |segs|
      ensures segs[k].start <= segs[k].end
    {
      var j, i :| 0 <= j < i < |events| &&
        events[j] == NoteEvent(segs[k].start, segs[k].note, true) &&
        events[i] == NoteEvent(segs[k].end, segs[k].note, false);
    }
  }

  /** A note that is never released produces no segment: it is still sounding when the
      events run out, and nothing is written for it. */
  lemma {:induction false} UnreleasedNoteSilent(events: seq<NoteEvent>, n: nat)
    requires forall i :: 0 <= i < |events| && events[i].note == n ==> events[i].on
    ensures forall k :: 0 <= k < |Paired(events).segments| ==> Paired(events).segments[k].note != n
  {
    PairedTraced(events);
    var segs := Paired(events).segments;
    forall k | 0 <= k < |segs|
      ensures segs[k].note != n
    {
      var j, i :| 0 <= j < i < |events| &&
        events[j] == NoteEvent(segs[k].start, segs[k].note, true) &&
        events[i] == NoteEvent(segs[k].end, segs[k].note, false);
    }
  }

  // ------------------------------------------------------------------
  // The per-frame frequency array
  // ------------------------------------------------------------------

  /** The last frame any segment ends at, `max(end for ...)`. */
  function LastEnd(segments: seq<Segment>): (r: nat)
    requires segments != []
    ensures forall k :: 0 <= k < |segments| ==> segments[k].end <= r
    ensures exists k :: 0 <= k < |segments| && segments[k].end == r
  {
    var s := segments[|segments| - 1];
    if |segments| == 1 then s.end else Max(LastEnd(segments[..|segments| - 1]), s.end)
  }

  /** `total_frames`: one more than the last end frame. */
  function TotalFrames(segments: seq<Segment>): (r: nat)
    requires segments != []
    ensures forall k :: 0 <= k < |segments| ==> segments[k].end < r
    ensures exists k :: 0 <= k < |segments| && segments[k].end == r - 1
  {
    LastEnd(segments) + 1
  }

  predicate Covers(s: Segment, f: nat) {
    s.start <= f < s.end
  }

  /** Frame f after the fill loop has seen `segments`: the highest segment frequency that
      replaced the value before it, starting from silence (0). */
  function Loudest(segments: seq<Segment>, f: nat, freq: nat -> nat): (r: nat)
    ensures r == 0 || exists k :: 0 <= k < |segments| && Covers(segments[k], f) && r == freq(segments[k].note)
  {
    if segments == [] then 0
    else
      var s := segments[|segments| - 1];
      var before := Loudest(segments[..|segments| - 1], f, freq);
      if Covers(s, f) && freq(s.note) > before then freq(s.note) else before
  }

  /** Each frame holds the maximum frequency of the segments covering it, or 0 if none do. */
  lemma {:induction false} LoudestIsMax(segments: seq<Segment>, f: nat, freq: nat -> nat)
    ensures forall k :: 0 <= k < |segments| && Covers(segments[k], f) ==>
      freq(segments[k].note) <= Loudest(segments, f, freq)
    ensures Loudest(segments, f, freq) == 0 ||
      exists k :: 0 <= k < |segments| && Covers(segments[k], f) && freq(segments[k].note) == Loudest(segments, f, freq)
  {
    if segments != [] {
      var m := |segments| - 1;
      var front := segments[..m];
      LoudestIsMax(front, f, freq);
      forall k | 0 <= k < |segments| && Covers(segments[k], f)
        ensures freq(segments[k].note) <= Loudest(segments, f, freq)
      {
        if k < m {
          assert segments[k] == front[k];
        }
      }
      if Loudest(segments, f, freq) != 0 && Loudest(segments, f, freq) == Loudest(front, f, freq) {
        var k :| 0 <= k < |front| && Covers(front[k], f) && freq(front[k].note) == Loudest(front, f, freq);
        assert segments[k] == front[k];
      }
    }
  }

  /** The frame array the fill loop produces. */
  function FrameFreqs(segments: seq<Segment>, total: nat, freq: nat -> nat): (r: seq<nat>)
    ensures |r| == total
  {
    seq(total, f requires 0 <= f < total => Loudest(segments, f, freq))
  }

  lemma {:induction false} LoudestStep(segments: seq<Segment>, i: nat, f: nat, freq: nat -> nat)
    requires i < |segments|
    ensures Loudest(segments[..i + 1], f, freq) ==
      var s := segments[i];
      var before := Loudest(segments[..i], f, freq);
      if Covers(s, f) && freq(s.note) > before then freq(s.note) else before
  {
    assert segments[..i + 1][..i] == segments[..i];
  }

  /** The fill loops (lines 131-146): `end_frame` is clamped to the array and a segment
      starting at or after its end is skipped, so every write is inside the array. */
  method FillFrames(segments: seq<Segment>, total: nat, freq: nat -> nat) returns (frameFreq: array<nat>)
    ensures fresh(frameFreq)
    ensures frameFreq[..] == FrameFreqs(segments, total, freq)
  {
    frameFreq := new nat[total](_ => 0);
    for i := 0 to |segments|
      invariant forall g :: 0 <= g < total ==> frameFreq[g] == Loudest(segments[..i], g, freq)
    {
      FillSegment(frameFreq, segments, i, freq);
    }
    assert segments[..|segments|] == segments;
  }

  /** One pass of the outer fill loop: segment `i` raises the frames it covers to its
      frequency. */
  method FillSegment(frameFreq: array<nat>, segments: seq<Segment>, i: nat, freq: nat -> nat)
    requires i < |segments|
    requires forall g :: 0 <= g < frameFreq.Length ==> frameFreq[g] == Loudest(segments[..i], g, freq)
    modifies frameFreq
    ensures forall g :: 0 <= g < frameFreq.Length ==> frameFreq[g] == Loudest(segments[..i + 1], g, freq)
  {
    var total := frameFreq.Length;
    var s := segments[i];
    var startFrame, endFrame := s.start, s.end;
    if endFrame > total {
      endFrame := total;
    }
    if startFrame >= total {
      forall g | 0 <= g < total
        ensures frameFreq[g] == Loudest(segments[..i + 1], g, freq)
      {
        LoudestStep(segments, i, g, freq);
      }
      return;
    }
    var v := freq(s.note);
    var f := startFrame;
    while f < endFrame
      invariant startFrame <= f && (f <= endFrame || endFrame < startFrame)
      invariant forall g :: 0 <= g < total ==>
        frameFreq[g] == if startFrame <= g < f then Loudest(segments[..i + 1], g, freq) else Loudest(segments[..i], g, freq)
    {
      LoudestStep(segments, i, f, freq);
      if v > frameFreq[f] {
        frameFreq[f] := v;
      }
      f := f + 1;
    }
    forall g | 0 <= g < total
      ensures frameFreq[g] == Loudest(segments[..i + 1], g, freq)
    {
      LoudestStep(segments, i, g, freq);
    }
  }

  // ------------------------------------------------------------------
  // Run-length encoding
  // ------------------------------------------------------------------

  /** `count` consecutive frames of one unrounded frequency. */
  datatype Run = Run(value: nat, count: nat)

  function Fill(v: nat, n: nat): (r: seq<nat>)
    ensures |r| == n && forall i :: 0 <= i < n ==> r[i] == v
  {
    seq(n, _ => v)
  }

  /** The frames the runs stand for. */
  function Expand(runs: seq<Run>): seq<nat> {
    if runs == [] then [] else Expand(runs[..|runs| - 1]) + Fill(runs[|runs| - 1].value, runs[|runs| - 1].count)
  }

  function Sum(runs: seq<Run>): nat {
    if runs == [] then 0 else Sum(runs[..|runs| - 1]) + runs[|runs| - 1].count
  }

  /** Runs as the encoder makes them: none is empty and neighbours differ. */
  predicate Canonical(runs: seq<Run>) {
    (forall k :: 0 <= k < |runs| ==> runs[k].count >= 1) &&
    (forall k :: 0 < k < |runs| ==> runs[k - 1].value != runs[k].value)
  }

  lemma {:induction false} ExpandLength(runs: seq<Run>)
    ensures |Expand(runs)| == Sum(runs)
  {
    if runs != [] {
      ExpandLength(runs[..|runs| - 1]);
    }
  }

  lemma {:induction false} ExpandAppend(runs: seq<Run>, r: Run)
    ensures Expand(runs + [r]) == Expand(runs) + Fill(r.value, r.count)
    ensures Sum(runs + [r]) == Sum(runs) + r.count
  {
    assert (runs + [r])[..|runs|] == runs;
  }

  /** The run-length loop (lines 149-158): the runs partition the frame array. Every count
      is at least 1, the counts add up to the number of frames, expanding the runs gives the
      array back, and adjacent runs have different frequencies. */
  method RunLength(frameFreq: array<nat>) returns (runs: seq<Run>)
    ensures Canonical(runs)
    ensures Expand(runs) == frameFreq[..]
    ensures Sum(runs) == frameFreq.Length
  {
    var n := frameFreq.Length;
    runs := [];
    var i := 0;
    while i < n
      invariant i <= n
      invariant Canonical(runs) && Expand(runs) == frameFreq[..i] && Sum(runs) == i
      invariant runs != [] && i < n ==> runs[|runs| - 1].value != frameFreq[i]
    {
      var cur := frameFreq[i];
      var cnt := 1;
      while i + cnt < n && frameFreq[i + cnt] == cur
        invariant 1 <= cnt && i + cnt <= n
        invariant forall k :: i <= k < i + cnt ==> frameFreq[k] == cur
      {
        cnt := cnt + 1;
      }
      ExpandAppend(runs, Run(cur, cnt));
      assert frameFreq[..i + cnt] == frameFreq[..i] + Fill(cur, cnt);
      runs := runs + [Run(cur, cnt)];
      i := i + cnt;
    }
    assert frameFreq[..n] == frameFreq[..];
  }

  /** The last `r.count` frames of the expansion are the last run's value and the frame
      before them belongs to the run before. */
  lemma {:induction false} ExpandTail(runs: seq<Run>, j: nat)
    requires runs != [] && j < |Expand(runs)|
    ensures var m := |runs| - 1;
      var cut := |Expand(runs[..m])|;
      j >= cut ==> Expand(runs)[j] == runs[m].value
    ensures j < |Expand(runs[..|runs| - 1])| ==> Expand(runs)[j] == Expand(runs[..|runs| - 1])[j]
  {
  }

  /** A canonical run list is determined by what it expands to. */
  lemma {:induction false} CanonicalUnique(a: seq<Run>, b: seq<Run>)
    requires Canonical(a) && Canonical(b) && Expand(a) == Expand(b)
    ensures a == b
    decreases |a| + |b|
  {
    if a == [] && b == [] {
    } else if a == [] {
      ExpandLength(b);
      SumPositive(b);
      assert false;
    } else if b == [] {
      ExpandLength(a);
      SumPositive(a);
      assert false;
    } else {
      var ma, mb := |a| - 1, |b| - 1;
      var a0, b0 := a[..ma], b[..mb];
      var s := Expand(a);
      var ca, cb := |Expand(a0)|, |Expand(b0)|;
      assert |s| == ca + a[ma].count && |s| == cb + b[mb].count;
      ExpandTail(a, |s| - 1);
      ExpandTail(b, |s| - 1);
      assert a[ma].value == b[mb].value;
      CanonicalPrefix(a);
      CanonicalPrefix(b);
      if ca < cb {
        LastValueDiffers(b, cb - 1);
        assert false;
      } else if cb < ca {
        LastValueDiffers(a, ca - 1);
        assert false;
      }
      assert Expand(a0) == s[..ca] == Expand(b0);
      CanonicalUnique(a0, b0);
    }
  }

  lemma {:induction false} CanonicalPrefix(runs: seq<Run>)
    requires Canonical(runs) && runs != []
    ensures Canonical(runs[..|runs| - 1])
  {
  }

  lemma {:induction false} SumPositive(runs: seq<Run>)
    requires Canonical(runs) && runs != []
    ensures Sum(runs) >= 1
  {
  }

  /** In a canonical list of two or more runs, the frame just before the last run holds a
      different value from the last run; with one run there is no such frame. */
  lemma {:induction false} LastValueDiffers(runs: seq<Run>, j: int)
    requires Canonical(runs) && runs != [] && j == |Expand(runs[..|runs| - 1])| - 1
    ensures j >= 0 ==> j < |Expand(runs)| && Expand(runs)[j] != runs[|runs| - 1].value
  {
    var m := |runs| - 1;
    if j >= 0 {
      var front := runs[..m];
      assert front != [];
      ExpandTail(front, j);
      CanonicalPrefix(runs);
      ExpandLength(front[..|front| - 1]);
      assert front[..m - 1] == runs[..m - 1];
      assert Expand(front)[j] == runs[m - 1].value;
    }
  }

  // ------------------------------------------------------------------
  // The melody file
  // ------------------------------------------------------------------

  /** `(int(round(cur_freq * 10)), cnt)` for every run. */
  function Melody(runs: seq<Run>, x10: nat -> nat): (notes: seq<Note>)
    ensures |notes| == |runs|
    ensures forall k :: 0 <= k < |runs| ==> notes[k] == Note(x10(runs[k].value), runs[k].count)
  {
    seq(|runs|, k requires 0 <= k < |runs| => Note(x10(runs[k].value), runs[k].count))
  }

  /** The writing loop (lines 161-163). `struct.pack('<HH', ...)` raises on a value above
      65535; the records before the first such one are already in the file. */
  method WriteMelody(notes: seq<Note>) returns (ok: bool, out: seq<byte>)
    ensures ok <==> Packable(notes)
    ensures ok ==> out == NoteBytes(notes)
    ensures !ok ==> exists k :: 0 <= k < |notes| && !Packable([notes[k]]) && Packable(notes[..k]) &&
                                out == NoteBytes(notes[..k])
  {
    out := [];
    var i := 0;
    while i < |notes|
      invariant i <= |notes| && Packable(notes[..i]) && out == NoteBytes(notes[..i])
    {
      var n := notes[i];
      if n.freqX10 >= 0x1_0000 || n.frames >= 0x1_0000 {
        assert [notes[i]][0] == n;
        return false, out;
      }
      assert notes[..i + 1][..i] == notes[..i];
      out := out + PackU16LE(n.freqX10) + PackU16LE(n.frames);
      i := i + 1;
    }
    assert notes[..i] == notes;
    return true, out;
  }

  /** The melody file plays as written: the player's record reader returns run j from
      offset 4 * j and end of file after the last run (main.py:71-75). */
  lemma {:induction false} PlayerReadsMelody(notes: seq<Note>)
    requires Packable(notes)
    ensures forall j :: 0 <= j < |notes| ==>
      ReadNote(NoteBytes(notes), 4 * j) == NoteRead(Some(notes[j]), 4 * (j + 1))
    ensures ReadNote(NoteBytes(notes), 4 * |notes|).note.None?
  {
    assert NoteBytes(notes) + [] == NoteBytes(notes);
    forall j | 0 <= j < |notes|
      ensures ReadNote(NoteBytes(notes), 4 * j) == NoteRead(Some(notes[j]), 4 * (j + 1))
    {
      PlayerFacts.ReadMelody(notes, [], j);
    }
    PlayerFacts.ReadMelody(notes, [], |notes|);
  }

  /** The melody lasts as many frames as the frame array has. */
  lemma {:induction false} MelodyDuration(runs: seq<Run>, x10: nat -> nat)
    ensures PlayerFacts.Frames(Melody(runs, x10)) == Sum(runs)
  {
    if runs != [] {
      var m := |runs| - 1;
      MelodyDuration(runs[..m], x10);
      assert Melody(runs, x10)[..m] == Melody(runs[..m], x10);
    }
  }

  // ------------------------------------------------------------------
  // The whole conversion
  // ------------------------------------------------------------------

  /** What the conversion leaves behind: no file at all, or a file that holds every
      record (`ok`) or the records before the one `struct.pack` refused. */
  datatype Written = NoFile | File(ok: bool, bytes: seq<byte>)

  /** `midi_to_melody_bin` from the sorted events on: with no complete segment nothing is
      written; otherwise the file holds the run-length encoding of the per-frame maxima, all
      of it, or the records before the first run `struct.pack` refuses. */
  method MidiToMelody(events: seq<NoteEvent>, freq: nat -> nat, x10: nat -> nat)
    returns (segments: seq<Segment>, runs: seq<Run>, written: Written)
    ensures segments == Paired(events).segments
    ensures written.NoFile? <==> segments == []
    ensures segments != [] ==>
      Canonical(runs) && Expand(runs) == FrameFreqs(segments, TotalFrames(segments), freq) &&
      Sum(runs) == TotalFrames(segments) &&
      (written.ok <==> Packable(Melody(runs, x10))) &&
      (written.ok ==> written.bytes == NoteBytes(Melody(runs, x10))) &&
      (!written.ok ==> (exists k :: 0 <= k < |runs| && !Packable([Melody(runs, x10)[k]]) &&
                                    Packable(Melody(runs, x10)[..k]) && written.bytes == NoteBytes(Melody(runs, x10)[..k])))
  {
    segments := PairSegments(events);
    if segments == [] {
      return segments, [], NoFile;
    }
    var total := TotalFrames(segments);
    var frameFreq := FillFrames(segments, total, freq);
    runs := RunLength(frameFreq);
    var ok, bytes := WriteMelody(Melody(runs, x10));
    written := File(ok, bytes);
  }
}
