/** one_tracks.py: the sort-based flattener. Notes of all tracks get absolute
    times, are stably sorted, turned back into relative times, moved into C and
    into a note range; the OnOnly variant then turns note_on/note_off pairs into
    (pitch, held duration) entries with 300 wait markers, and the Ordered variant
    reorders and thins those entries. */
module OneTracks {
  import opened Base
  import opened Sorting

  const MarkerPitch := 300
  const NotesPerOctave := 12

  /** one_tracks.Note; its type is a Kind ("time_unit" for the 300 markers). */
  datatype Note = Note(note: int, time: int, kind: Kind, velocity: int, instrument: int)

  /** Note.__init__: a velocity of 0 makes the note a note_off whatever type was
      passed; every other field is stored as given. */
  function MakeNote(note: int, time: int, kind: Kind, velocity: int, instrument: int): (n: Note)
    ensures velocity == 0 ==> n.kind == NoteOff
    ensures velocity != 0 ==> n.kind == kind
    ensures n.note == note && n.time == time && n.velocity == velocity && n.instrument == instrument
  {
    Note(note, time, if velocity == 0 then NoteOff else kind, velocity, instrument)
  }

  // ---------------------------------------------------------------------------
  // Keys

  /** OneTrack.halfStepsAboveC: the 20 key names the class knows. */
  const HalfStepsAboveC: map<string, int> := map[
    "C" := 0, "B#" := 0, "Db" := 1, "C#" := 1, "D" := 2, "Eb" := 3, "D#" := 3,
    "Fb" := 4, "E" := 4, "E#" := 5, "F" := 5, "F#" := 6, "Gb" := 6, "G" := 7,
    "G#" := 8, "Ab" := 8, "A" := 9, "A#" := 10, "Bb" := 10, "B" := 11]

  predicate NotMinorMark(c: char) {
    c != 'm'
  }

  /** key.replace("m", ""): every 'm' removed. */
  function StripMinor(key: string): (r: string)
    ensures 'm' !in r
  {
    FilterMembers(key, NotMinorMark);
    Filter(key, NotMinorMark)
  }

  /** halfStepsAboveC[key.replace("m", "")]; None where Python raises KeyError. */
  function KeyOffset(key: string, table: map<string, int>): Option<int> {
    var name := StripMinor(key);
    if name in table then Some(table[name]) else None
  }

  /** An independent reading of a key name: the semitone of its letter above C,
      raised by a sharp and lowered by a flat, modulo 12. */
  function LetterSemitone(c: char): Option<int> {
    match c
    case 'C' => Some(0)
    case 'D' => Some(2)
    case 'E' => Some(4)
    case 'F' => Some(5)
    case 'G' => Some(7)
    case 'A' => Some(9)
    case 'B' => Some(11)
    case _ => None
  }

  function Spelled(name: string): Option<int> {
    if |name| == 0 || |name| > 2 || LetterSemitone(name[0]).None? then None
    else if |name| == 1 then Some(LetterSemitone(name[0]).value)
    else if name[1] == '#' then Some((LetterSemitone(name[0]).value + 1) % 12)
    else if name[1] == 'b' then Some((LetterSemitone(name[0]).value + 11) % 12)
    else None
  }

  /** The 30 key names a MIDI key_signature meta message can carry: the 15
      major names, and the 15 minor roots followed by 'm'. */
  const MajorKeys: seq<string> := ["Cb", "Gb", "Db", "Ab", "Eb", "Bb", "F", "C", "G", "D", "A", "E", "B", "F#", "C#"]
  const MinorRoots: seq<string> := ["Ab", "Eb", "Bb", "F", "C", "G", "D", "A", "E", "B", "F#", "C#", "G#", "D#", "A#"]

  /** As written the table has no "Cb": a piece in C-flat major has no offset,
      although the name spells semitone 11. */
  lemma CFlatMissing()
    ensures MajorKeys[0] == "Cb" && KeyOffset("Cb", HalfStepsAboveC).None?
    ensures Spelled("Cb") == Some(11) && KeyOffset("Cb", HalfStepsAboveCFixed) == Some(11)
  {
    assert StripMinor("Cb") == "Cb";
  }

  /** The table with the C-flat entry the other enharmonic spellings suggest. */
  const HalfStepsAboveCFixed: map<string, int> := HalfStepsAboveC["Cb" := 11]

  /** Every offset of the table, corrected or not, is a semitone in 0..11. */
  lemma TableInOctave()
    ensures forall name :: name in HalfStepsAboveCFixed ==> 0 <= HalfStepsAboveCFixed[name] < NotesPerOctave
    ensures forall name :: name in HalfStepsAboveC ==> HalfStepsAboveCFixed[name] == HalfStepsAboveC[name]
  {
  }

  /** With the corrected table every MIDI key name has an offset: no key
      signature a MIDI file can carry makes the lookup fail. */
  lemma FixedTableCoversKeys()
    ensures forall i :: 0 <= i < |MajorKeys| ==> KeyOffset(MajorKeys[i], HalfStepsAboveCFixed).Some?
    ensures forall i :: 0 <= i < |MinorRoots| ==> KeyOffset(MinorRoots[i] + "m", HalfStepsAboveCFixed).Some?
  {
    forall i | 0 <= i < |MajorKeys|
      ensures StripMinor(MajorKeys[i]) == MajorKeys[i]
    {
      StripNoMark(MajorKeys[i]);
    }
    forall i | 0 <= i < |MinorRoots|
      ensures StripMinor(MinorRoots[i] + "m") == MinorRoots[i]
    {
      var r := MinorRoots[i];
      StripNoMark(r);
      FilterAppend(r, "m", NotMinorMark);
      assert Filter("m", NotMinorMark) == [];
    }
  }

  lemma {:induction false} StripNoMark(name: string)
    requires 'm' !in name
    ensures StripMinor(name) == name
  {
    if name != [] {
      StripNoMark(name[1..]);
      assert name == [name[0]] + name[1..];
    }
  }

  // ---------------------------------------------------------------------------
  // Validity

  /** needKey: a key is needed to move into C or to select major or minor pieces. */
  predicate NeedKey(convertToC: bool, scales: string) {
    convertToC || scales != "both"
  }

  /** _isValid, with key None when the piece had no key_signature message. */
  function IsValid(key: Option<string>, convertToC: bool, scales: string): (r: bool)
    ensures r <==> (NeedKey(convertToC, scales) ==> key.Some?)
                   && (key.Some? && scales == "major" ==> 'm' !in key.value)
                   && (key.Some? && scales == "minor" ==> 'm' in key.value)
  {
    if key.None? && (convertToC || scales != "both") then false
    else if scales == "major" && key.Some? && 'm' in key.value then false
    else if scales == "minor" && key.Some? && 'm' !in key.value then false
    else true
  }

  // ---------------------------------------------------------------------------
  // Time quantisation

  /** _timeConversion: ceil(ticks / tpb / 4 / smallestTimeUnit) with
      smallestTimeUnit = 1/k, computed exactly. */
  function CeilUnits(ticks: int, tpb: nat, k: nat): int
    requires tpb > 0 && k > 0
  {
    -((-(ticks * k)) / (4 * tpb))
  }

  lemma MulLess(a: int, b: int, d: int)
    requires d > 0 && a * d < b * d
    ensures a < b
  {
    assert a * d - b * d == (a - b) * d;
  }

  /** CeilUnits is the ceiling: the least r with ticks * k <= r * 4 * tpb. */
  lemma CeilUnitsBounds(ticks: int, tpb: nat, k: nat)
    requires tpb > 0 && k > 0
    ensures var r, d := CeilUnits(ticks, tpb, k), 4 * tpb;
      ticks * k <= r * d && (r - 1) * d < ticks * k
  {
    var n, d := ticks * k, 4 * tpb;
    var q := (-n) / d;
    assert -n == q * d + (-n) % d;
    assert (-q - 1) * d == -q * d - d;
  }

  /** A value below a ceiling of a larger value stays below it. */
  lemma CeilOrder(n1: int, n2: int, r1: int, r2: int, d: int)
    requires d > 0 && n1 <= n2 && (r1 - 1) * d < n1 && n2 <= r2 * d
    ensures r1 <= r2
  {
    MulLess(r1 - 1, r2, d);
  }

  lemma MulMonotone(t1: int, t2: int, k: nat)
    requires t1 <= t2
    ensures t1 * k <= t2 * k
  {
    assert t2 * k - t1 * k == (t2 - t1) * k;
  }

  lemma CeilUnitsPositive(t: int, tpb: nat, k: nat)
    requires tpb > 0 && k > 0 && t > 0
    ensures CeilUnits(t, tpb, k) >= 1
  {
    CeilUnitsBounds(t, tpb, k);
    MulMonotone(1, t, k);
    CeilOrder(0, t * k, 0, CeilUnits(t, tpb, k), 4 * tpb);
  }

  lemma CeilUnitsOrder(t1: int, t2: int, tpb: nat, k: nat)
    requires tpb > 0 && k > 0 && t1 <= t2
    ensures CeilUnits(t1, tpb, k) <= CeilUnits(t2, tpb, k)
  {
    CeilUnitsBounds(t1, tpb, k);
    CeilUnitsBounds(t2, tpb, k);
    MulMonotone(t1, t2, k);
    CeilOrder(t1 * k, t2 * k, CeilUnits(t1, tpb, k), CeilUnits(t2, tpb, k), 4 * tpb);
  }

  lemma CeilUnitsZero(tpb: nat, k: nat)
    requires tpb > 0 && k > 0
    ensures CeilUnits(0, tpb, k) == 0
  {
    var d := 4 * tpb;
    assert -(0 * k) == 0;
    assert 0 == 0 * d + 0;
    assert 0 / d == 0;
  }

  /** No time gives no units, any positive time at least one, and the
      quantiser keeps the order of times. */
  lemma CeilUnitsMonotone(t1: int, t2: int, tpb: nat, k: nat)
    requires tpb > 0 && k > 0
    ensures CeilUnits(0, tpb, k) == 0
    ensures t1 > 0 ==> CeilUnits(t1, tpb, k) >= 1
    ensures t1 <= t2 ==> CeilUnits(t1, tpb, k) <= CeilUnits(t2, tpb, k)
  {
    CeilUnitsZero(tpb, k);
    if t1 > 0 {
      CeilUnitsPositive(t1, tpb, k);
    }
    if t1 <= t2 {
      CeilUnitsOrder(t1, t2, tpb, k);
    }
  }

  /** With one unit per tick (k = 4 * tpb) the quantiser is the identity. */
  lemma CeilUnitsExact(ticks: int, tpb: nat)
    requires tpb > 0
    ensures CeilUnits(ticks, tpb, 4 * tpb) == ticks
  {
    var d := 4 * tpb;
    var r := CeilUnits(ticks, tpb, d);
    CeilUnitsBounds(ticks, tpb, d);
    assert ticks * d == d * ticks;
    MulLess(r - 1, ticks, d);
    if ticks < r {
      MulLess(ticks, r, d);
    }
  }

  // ---------------------------------------------------------------------------
  // Moving into C and into the note range

  /** _convertNoteToC with kOff = halfStepsAboveC: down by halfStepsBelowC =
      14 - kOff, or up by kOff when that went below 0 or took a note above 87
      below 88. */
  function ConvertNoteToC(note: int, kOff: int): (r: int)
    ensures r == note - (14 - kOff) || r == note + kOff
    ensures r == note - (14 - kOff) <==>
      note - (14 - kOff) >= 0 && !(note > 87 && note - (14 - kOff) < 88)
  {
    var newNote := note - (14 - kOff);
    if (note > 87 && newNote < 88) || newNote < 0 then note + kOff else newNote
  }

  /** The result is never negative, and a note above 87 stays above 87. */
  lemma ConvertNoteToCRange(note: int, kOff: int)
    requires note >= 0 && 0 <= kOff < NotesPerOctave
    ensures ConvertNoteToC(note, kOff) >= 0
    ensures note > 87 ==> ConvertNoteToC(note, kOff) >= 88
  {
  }

  /** As written the tonic does not land on C, and not even on one common pitch
      class: C 60 in C major becomes 46 (A#), D 62 in D major becomes 50 (D). */
  lemma ConvertNoteToCMissesC()
    ensures ConvertNoteToC(60, 0) == 46 && 46 % NotesPerOctave == 10
    ensures ConvertNoteToC(62, 2) == 50 && 50 % NotesPerOctave == 2
  {
  }

  /** The evidently intended move into C: down by kOff, or up by 12 - kOff under
      the same two conditions. */
  function ConvertNoteToCFixed(note: int, kOff: int): int {
    var newNote := note - kOff;
    if (note > 87 && newNote < 88) || newNote < 0 then note + (NotesPerOctave - kOff) else newNote
  }

  /** Corrected, every note keeps its degree above the tonic: its pitch class
      becomes (note - kOff) mod 12, so the tonic lands on C; the result is never
      negative and a note above 87 stays above 87. */
  lemma ConvertNoteToCFixedDegree(note: int, kOff: int)
    requires note >= 0 && 0 <= kOff < NotesPerOctave
    ensures var r := ConvertNoteToCFixed(note, kOff);
      r % NotesPerOctave == (note - kOff) % NotesPerOctave
      && r >= 0 && (note > 87 ==> r >= 88)
  {
    var r := ConvertNoteToCFixed(note, kOff);
    assert r == note - kOff || r == (note - kOff) + NotesPerOctave;
  }

  /** _minMaxOctaveConvert: a pitch above maxNote moves down, one below minNote
      up, by whole octaves; ((p - max) // 12 + 1) and ((min - p) // 12 + 1) of
      them. */
  function MinMaxOctaveConvert(p: int, minNote: int, maxNote: int): int {
    if p > maxNote then p - NotesPerOctave * ((p - maxNote) / NotesPerOctave + 1)
    else if p < minNote then p + NotesPerOctave * ((minNote - p) / NotesPerOctave + 1)
    else p
  }

  /** A pitch in range is kept; one above ends in [max - 12, max - 1], one below
      in [min + 1, min + 12]; the pitch class never changes. */
  lemma MinMaxOctaveConvertRange(p: int, minNote: int, maxNote: int)
    requires minNote <= maxNote
    ensures var r := MinMaxOctaveConvert(p, minNote, maxNote);
      (minNote <= p <= maxNote ==> r == p)
      && (p > maxNote ==> maxNote - NotesPerOctave <= r <= maxNote - 1)
      && (p < minNote ==> minNote + 1 <= r <= minNote + NotesPerOctave)
      && r % NotesPerOctave == p % NotesPerOctave
  {
    if p > maxNote {
      var q := (p - maxNote) / NotesPerOctave;
      assert p - maxNote == NotesPerOctave * q + (p - maxNote) % NotesPerOctave;
    } else if p < minNote {
      var q := (minNote - p) / NotesPerOctave;
      assert minNote - p == NotesPerOctave * q + (minNote - p) % NotesPerOctave;
    }
  }

  /** With a range of at least an octave every pitch ends inside it. */
  lemma MinMaxOctaveConvertInRange(p: int, minNote: int, maxNote: int)
    requires maxNote - minNote >= NotesPerOctave
    ensures minNote <= MinMaxOctaveConvert(p, minNote, maxNote) <= maxNote
  {
    MinMaxOctaveConvertRange(p, minNote, maxNote);
  }

  // ---------------------------------------------------------------------------
  // Absolute notes

  /** The program of the last program_change of a track, 0 before any. */
  function InstrumentOf(track: seq<Msg>): int {
    if track == [] then 0
    else if track[|track| - 1].body.ProgramChange? then track[|track| - 1].body.program
    else InstrumentOf(track[..|track| - 1])
  }

  /** The key of the last key_signature message of a track. */
  function KeyIn(track: seq<Msg>): Option<string> {
    if track == [] then None
    else if track[|track| - 1].body.KeySignature? then Some(track[|track| - 1].body.key)
    else KeyIn(track[..|track| - 1])
  }

  /** self.key after _extractNotesAbs: the key of the last key_signature message
      of all tracks, read in order. */
  function LastKey(tracks: seq<seq<Msg>>): Option<string> {
    if tracks == [] then None
    else if KeyIn(tracks[|tracks| - 1]).Some? then KeyIn(tracks[|tracks| - 1])
    else LastKey(tracks[..|tracks| - 1])
  }

  /** The Note appended for the last message of a track prefix: its absolute
      time is the running sum of the deltas of the track up to and including it. */
  function AbsNote(track: seq<Msg>): Note
    requires track != [] && IsNoteMsg(track[|track| - 1])
  {
    var m := track[|track| - 1];
    MakeNote(m.body.note, SumTimes(track), MsgKind(m), m.body.velocity, InstrumentOf(track))
  }

  /** The notes of one track, in track order. */
  function TrackNotes(track: seq<Msg>): seq<Note> {
    if track == [] then []
    else TrackNotes(track[..|track| - 1]) + if IsNoteMsg(track[|track| - 1]) then [AbsNote(track)] else []
  }

  /** The notes of all tracks, track after track, before the sort. */
  function UnsortedNotes(tracks: seq<seq<Msg>>): seq<Note> {
    if tracks == [] then [] else UnsortedNotes(tracks[..|tracks| - 1]) + TrackNotes(tracks[|tracks| - 1])
  }

  function TimeOf(n: Note): int {
    n.time
  }

  /** notesAbs after _extractNotesAbs: a stable sort by absolute time. */
  function NotesAbs(tracks: seq<seq<Msg>>): seq<Note> {
    SortBy(UnsortedNotes(tracks), TimeOf)
  }

  /** The absolute notes are sorted by time and are exactly the notes of the
      tracks; any filter of them (one pitch, one instrument, ...) keeps the
      track-by-track order among equal times. */
  lemma NotesAbsSorted(tracks: seq<seq<Msg>>, p: Note -> bool)
    ensures SortedBy(NotesAbs(tracks), TimeOf)
    ensures multiset(NotesAbs(tracks)) == multiset(UnsortedNotes(tracks))
    ensures Filter(NotesAbs(tracks), p) == SortBy(Filter(UnsortedNotes(tracks), p), TimeOf)
  {
    SortBySorted(UnsortedNotes(tracks), TimeOf);
    SortByPerm(UnsortedNotes(tracks), TimeOf);
    FilterSortBy(UnsortedNotes(tracks), TimeOf, p);
  }

  /** Within one track the notes come in message order with non-decreasing
      times, each time being the running sum of the deltas up to the note. */
  lemma {:induction false} TrackNotesTimes(track: seq<Msg>)
    ensures forall i, j :: 0 <= i < j < |TrackNotes(track)| ==> TrackNotes(track)[i].time <= TrackNotes(track)[j].time
    ensures forall i :: 0 <= i < |TrackNotes(track)| ==> 0 <= TrackNotes(track)[i].time <= SumTimes(track)
  {
    if track != [] {
      var init := track[..|track| - 1];
      TrackNotesTimes(init);
      SumTimesMonotone(track, |track| - 1, |track|);
      assert track[..|track|] == track;
    }
  }

  // ---------------------------------------------------------------------------
  // Relative notes

  /** The copy appended at loop step i of _convertToNotesRel: note i + 1 with
      its delta to note i (whose time is 0 when i = 0: the first note's time was
      overwritten through the shared object), quantised, and moved into C when
      asked. */
  function RelNote(abs: seq<Note>, i: nat, convertToC: bool, kOff: int, tpb: nat, k: nat): Note
    requires i + 1 < |abs| && tpb > 0 && k > 0
  {
    var cur := abs[i + 1];
    var prevTime := if i == 0 then 0 else abs[i].time;
    cur.(note := if convertToC then ConvertNoteToC(cur.note, kOff) else cur.note,
         time := CeilUnits(cur.time - prevTime, tpb, k))
  }

  /** notesRel after _convertToNotesRel: empty for no notes; otherwise the first
      note with time 0 and its own pitch, then the loop's copies of notes 1 to
      n - 2 (range(len(notesAbs[1:]) - 1) stops before the last note). */
  function RelNotes(abs: seq<Note>, convertToC: bool, kOff: int, tpb: nat, k: nat): (r: seq<Note>)
    requires tpb > 0 && k > 0
    ensures abs == [] ==> r == []
    ensures abs != [] ==> |r| == (if |abs| >= 2 then |abs| - 1 else 1)
    ensures abs != [] ==> r[0] == abs[0].(time := 0)
    ensures forall i :: 1 <= i < |r| ==> r[i] == RelNote(abs, i - 1, convertToC, kOff, tpb, k)
  {
    if abs == [] then []
    else [abs[0].(time := 0)] + seq(if |abs| >= 2 then |abs| - 2 else 0, i requires 0 <= i && i + 2 <= |abs| =>
                                       RelNote(abs, i, convertToC, kOff, tpb, k))
  }

  /** The sum of the times of a note list. */
  function SumNoteTimes(s: seq<Note>): int {
    if s == [] then 0 else SumNoteTimes(s[..|s| - 1]) + s[|s| - 1].time
  }

  /** With one unit per tick the relative times rebuild the absolute ones: the
      times of entries 0..j add up to note j's absolute time for every j >= 1
      (entry 0 itself is placed at 0). */
  lemma RelNotesTimeline(abs: seq<Note>, convertToC: bool, kOff: int, tpb: nat)
    requires tpb > 0
    ensures var r := RelNotes(abs, convertToC, kOff, tpb, 4 * tpb);
      forall j :: 1 <= j < |r| ==> SumNoteTimes(r[..j + 1]) == abs[j].time
  {
    var r := RelNotes(abs, convertToC, kOff, tpb, 4 * tpb);
    forall j | 1 <= j < |r| ensures SumNoteTimes(r[..j + 1]) == abs[j].time {
      RelNotesPrefix(abs, convertToC, kOff, tpb, j);
    }
  }

  lemma {:induction false} RelNotesPrefix(abs: seq<Note>, convertToC: bool, kOff: int, tpb: nat, j: nat)
    requires tpb > 0 && j < |RelNotes(abs, convertToC, kOff, tpb, 4 * tpb)|
    ensures SumNoteTimes(RelNotes(abs, convertToC, kOff, tpb, 4 * tpb)[..j + 1]) == if j == 0 then 0 else abs[j].time
  {
    var r := RelNotes(abs, convertToC, kOff, tpb, 4 * tpb);
    if j == 0 {
      assert r[..1][..0] == [];
    } else {
      RelNotesPrefix(abs, convertToC, kOff, tpb, j - 1);
      RelNoteExact(abs, j - 1, convertToC, kOff, tpb);
      assert r[..j + 1][..j] == r[..j] && r[..j + 1][j] == r[j];
    }
  }

  lemma RelNoteExact(abs: seq<Note>, i: nat, convertToC: bool, kOff: int, tpb: nat)
    requires i + 1 < |abs| && tpb > 0
    ensures RelNote(abs, i, convertToC, kOff, tpb, 4 * tpb).time == abs[i + 1].time - if i == 0 then 0 else abs[i].time
  {
    CeilUnitsExact(abs[i + 1].time - if i == 0 then 0 else abs[i].time, tpb);
  }

  /** For notes sorted by non-negative times, no relative time is negative. */
  lemma RelNotesNonNegative(abs: seq<Note>, convertToC: bool, kOff: int, tpb: nat, k: nat)
    requires tpb > 0 && k > 0 && SortedBy(abs, TimeOf)
    requires forall i :: 0 <= i < |abs| ==> abs[i].time >= 0
    ensures var r := RelNotes(abs, convertToC, kOff, tpb, k);
      forall i :: 0 <= i < |r| ==> r[i].time >= 0
  {
    var r := RelNotes(abs, convertToC, kOff, tpb, k);
    forall i | 1 <= i < |r| ensures r[i].time >= 0 {
      var prevTime := if i - 1 == 0 then 0 else abs[i - 1].time;
      assert TimeOf(abs[i - 1]) <= TimeOf(abs[i]);
      CeilUnitsMonotone(0, abs[i].time - prevTime, tpb, k);
    }
  }

  /** The bound evidently intended, range(len(notesAbs) - 1): the last note
      gets its entry too. */
  function RelNotesFixed(abs: seq<Note>, convertToC: bool, kOff: int, tpb: nat, k: nat): seq<Note>
    requires tpb > 0 && k > 0
  {
    var r := RelNotes(abs, convertToC, kOff, tpb, k);
    if |abs| >= 2 then r + [RelNote(abs, |abs| - 2, convertToC, kOff, tpb, k)] else r
  }

  /** Corrected, there is one entry per note and with one unit per tick the
      times add up to every note's absolute time, the last one included. */
  lemma RelNotesFixedTimeline(abs: seq<Note>, convertToC: bool, kOff: int, tpb: nat)
    requires tpb > 0
    ensures var r := RelNotesFixed(abs, convertToC, kOff, tpb, 4 * tpb);
      |r| == |abs| && forall j :: 1 <= j < |r| ==> SumNoteTimes(r[..j + 1]) == abs[j].time
  {
    var r := RelNotesFixed(abs, convertToC, kOff, tpb, 4 * tpb);
    var rel := RelNotes(abs, convertToC, kOff, tpb, 4 * tpb);
    if |abs| >= 2 {
      forall j | 1 <= j < |r|
        ensures SumNoteTimes(r[..j + 1]) == abs[j].time
      {
        if j < |rel| {
          assert r[..j + 1] == rel[..j + 1];
          RelNotesPrefix(abs, convertToC, kOff, tpb, j);
        } else {
          RelNotesPrefix(abs, convertToC, kOff, tpb, j - 1);
          RelNoteExact(abs, j - 1, convertToC, kOff, tpb);
          assert r[..j + 1][..j] == rel[..j];
        }
      }
    }
  }

  /** As written the last note gets no entry: with one unit per tick the
      timeline stops at the note before it, so whenever the last note comes
      later (a final note_off, say) its time is lost. */
  lemma RelNotesDropsLast(abs: seq<Note>, convertToC: bool, kOff: int, tpb: nat)
    requires tpb > 0 && |abs| >= 2
    requires abs[|abs| - 1].time > if |abs| == 2 then 0 else abs[|abs| - 2].time
    ensures var r := RelNotes(abs, convertToC, kOff, tpb, 4 * tpb);
      |r| == |abs| - 1 && SumNoteTimes(r) < abs[|abs| - 1].time
  {
    var r := RelNotes(abs, convertToC, kOff, tpb, 4 * tpb);
    RelNotesPrefix(abs, convertToC, kOff, tpb, |abs| - 2);
    assert r[..|abs| - 1] == r;
  }

  // ---------------------------------------------------------------------------
  // OneTrackOnOnly: (pitch, held time) entries and wait markers

  /** Note(300, time, "time_unit", 0, 0): its velocity 0 makes it a note_off. */
  function Marker(time: int): (n: Note)
    ensures n.note == MarkerPitch && n.time == time && n.kind == NoteOff
  {
    MakeNote(MarkerPitch, time, TimeUnit, 0, 0)
  }

  predicate EndsNote(n: Note, pitch: int) {
    n.kind == NoteOff && n.note == pitch
  }

  /** The inner loop of _calculateNoteOns over s = notesRel[i:]: the times up to
      and including the first note_off of the pitch, or all of them. */
  function Held(s: seq<Note>, pitch: int): int {
    if s == [] then 0
    else if EndsNote(s[0], pitch) then s[0].time
    else s[0].time + Held(s[1..], pitch)
  }

  /** What _calculateNoteOns appends for entry i: a wait marker for its time, if
      positive, then for a note_on the pitch held for Held(rel[i:], pitch). */
  function Emission(rel: seq<Note>, i: nat): seq<Note>
    requires i < |rel|
  {
    var n := rel[i];
    (if n.time > 0 then [Marker(n.time)] else [])
    + if n.kind == NoteOn then [MakeNote(n.note, Held(rel[i..], n.note), NoteOn, n.velocity, n.instrument)] else []
  }

  /** notesTimed after the first i entries of notesRel. */
  function Timed(rel: seq<Note>, i: nat): seq<Note>
    requires i <= |rel|
  {
    if i == 0 then [] else Timed(rel, i - 1) + Emission(rel, i - 1)
  }

  predicate IsMarker(n: Note) {
    n.note == MarkerPitch && n.kind == NoteOff && n.velocity == 0
  }

  predicate IsNoteOn(n: Note) {
    n.kind == NoteOn
  }

  function PitchOf(n: Note): int {
    n.note
  }

  /** The markers carry the whole timeline and the other entries are the
      note_ons in order: with non-negative times, and note_ons that are real
      ones (velocity not 0, as Note.__init__ makes them), the markers' times add
      up to the times of notesRel and the remaining entries are its note_ons'
      pitches. */
  lemma {:induction false} TimedMarkers(rel: seq<Note>, i: nat)
    requires i <= |rel|
    requires forall j :: 0 <= j < |rel| ==> rel[j].time >= 0 && (rel[j].kind == NoteOn ==> rel[j].velocity != 0)
    ensures SumNoteTimes(Filter(Timed(rel, i), IsMarker)) == SumNoteTimes(rel[..i])
  {
    if i > 0 {
      TimedMarkers(rel, i - 1);
      var t, e, n := Timed(rel, i - 1), Emission(rel, i - 1), rel[i - 1];
      FilterAppend(t, e, IsMarker);
      EmissionMarkers(rel, i - 1);
      SumNoteTimesAppend(Filter(t, IsMarker), Filter(e, IsMarker));
      SumNoteTimesPrefix(rel, i);
    }
  }

  lemma SumNoteTimesPrefix(rel: seq<Note>, i: nat)
    requires 0 < i <= |rel|
    ensures SumNoteTimes(rel[..i]) == SumNoteTimes(rel[..i - 1]) + rel[i - 1].time
  {
    assert rel[..i][..i - 1] == rel[..i - 1];
  }

  /** The markers of one emission carry the entry's time. */
  lemma EmissionMarkers(rel: seq<Note>, i: nat)
    requires i < |rel| && rel[i].time >= 0 && (rel[i].kind == NoteOn ==> rel[i].velocity != 0)
    ensures SumNoteTimes(Filter(Emission(rel, i), IsMarker)) == rel[i].time
  {
    var n := rel[i];
    var front := if n.time > 0 then [Marker(n.time)] else [];
    var back := if n.kind == NoteOn then [MakeNote(n.note, Held(rel[i..], n.note), NoteOn, n.velocity, n.instrument)] else [];
    FilterAppend(front, back, IsMarker);
    assert Filter(back, IsMarker) == [];
    assert Filter(front, IsMarker) == front;
    assert Filter(Emission(rel, i), IsMarker) == front;
    if n.time > 0 {
      assert front[..0] == [];
    }
  }

  /** The note_ons of one emission: the entry's pitch if it is a note_on. */
  lemma EmissionNoteOns(rel: seq<Note>, i: nat)
    requires i < |rel| && (rel[i].kind == NoteOn ==> rel[i].velocity != 0)
    ensures Map(Filter(Emission(rel, i), IsNoteOn), PitchOf) == Map(Filter([rel[i]], IsNoteOn), PitchOf)
  {
    var n := rel[i];
    var front := if n.time > 0 then [Marker(n.time)] else [];
    var back := if n.kind == NoteOn then [MakeNote(n.note, Held(rel[i..], n.note), NoteOn, n.velocity, n.instrument)] else [];
    FilterAppend(front, back, IsNoteOn);
    assert Filter(front, IsNoteOn) == [];
  }

  lemma {:induction false} TimedNoteOns(rel: seq<Note>, i: nat)
    requires i <= |rel|
    requires forall j :: 0 <= j < |rel| ==> (rel[j].kind == NoteOn ==> rel[j].velocity != 0)
    ensures Map(Filter(Timed(rel, i), IsNoteOn), PitchOf) == Map(Filter(rel[..i], IsNoteOn), PitchOf)
  {
    if i > 0 {
      TimedNoteOns(rel, i - 1);
      var t, e, n := Timed(rel, i - 1), Emission(rel, i - 1), rel[i - 1];
      FilterAppend(t, e, IsNoteOn);
      assert rel[..i] == rel[..i - 1] + [n];
      FilterAppend(rel[..i - 1], [n], IsNoteOn);
      EmissionNoteOns(rel, i - 1);
      MapAppend(Filter(t, IsNoteOn), Filter(e, IsNoteOn), PitchOf);
      MapAppend(Filter(rel[..i - 1], IsNoteOn), Filter([n], IsNoteOn), PitchOf);
    }
  }

  /** The markers carry the whole timeline and the other entries are the
      note_ons in order: with non-negative times, and note_ons that are real
      ones (velocity not 0, as Note.__init__ makes them), the markers' times add
      up to the times of notesRel and the remaining entries are its note_ons'
      pitches. */
  lemma TimedShape(rel: seq<Note>, i: nat)
    requires i <= |rel|
    requires forall j :: 0 <= j < |rel| ==> rel[j].time >= 0 && (rel[j].kind == NoteOn ==> rel[j].velocity != 0)
    ensures SumNoteTimes(Filter(Timed(rel, i), IsMarker)) == SumNoteTimes(rel[..i])
    ensures Map(Filter(Timed(rel, i), IsNoteOn), PitchOf) == Map(Filter(rel[..i], IsNoteOn), PitchOf)
  {
    TimedMarkers(rel, i);
    TimedNoteOns(rel, i);
  }

  lemma {:induction false} SumNoteTimesAppend(a: seq<Note>, b: seq<Note>)
    ensures SumNoteTimes(a + b) == SumNoteTimes(a) + SumNoteTimes(b)
    decreases |b|
  {
    if b != [] {
      SumNoteTimesAppend(a, b[..|b| - 1]);
      assert (a + b)[..|a + b| - 1] == a + b[..|b| - 1];
    } else {
      assert a + b == a;
    }
  }

  /** As written a note_on's held time starts with its own delta: the wait
      before the note, already emitted as a marker, is counted again. */
  lemma HeldCountsOwnGap(rel: seq<Note>, i: nat)
    requires i < |rel| && rel[i].kind == NoteOn
    ensures Held(rel[i..], rel[i].note) == rel[i].time + Held(rel[i + 1..], rel[i].note)
  {
    assert rel[i..][1..] == rel[i + 1..];
  }

  /** Note 60 on after a wait of 4, off 2 later: as written it is held for 6,
      the corrected entry holds it for the 2 that pass before its note_off. */
  lemma HeldGapExample()
    ensures var rel := [Note(60, 4, NoteOn, 100, 0), Note(60, 2, NoteOff, 0, 0)];
      Timed(rel, 2) == [Marker(4), Note(60, 6, NoteOn, 100, 0), Marker(2)]
      && TimedFixed(rel, 2) == [Marker(4), Note(60, 2, NoteOn, 100, 0), Marker(2)]
  {
    var rel := [Note(60, 4, NoteOn, 100, 0), Note(60, 2, NoteOff, 0, 0)];
    assert rel[0..] == rel && rel[1..] == [rel[1]] && rel[1..][1..] == [];
    assert Held(rel[1..], 60) == 2;
    assert Held(rel, 60) == 4 + Held(rel[1..], 60);
  }

  /** The entry _calculateNoteOns evidently means: the held time counts from
      after the note_on. */
  function EmissionFixed(rel: seq<Note>, i: nat): seq<Note>
    requires i < |rel|
  {
    var n := rel[i];
    (if n.time > 0 then [Marker(n.time)] else [])
    + if n.kind == NoteOn then [MakeNote(n.note, Held(rel[i + 1..], n.note), NoteOn, n.velocity, n.instrument)] else []
  }

  function TimedFixed(rel: seq<Note>, i: nat): seq<Note>
    requires i <= |rel|
  {
    if i == 0 then [] else TimedFixed(rel, i - 1) + EmissionFixed(rel, i - 1)
  }

  /** Held adds the times up to and including the first note_off of the pitch. */
  lemma {:induction false} HeldSpan(s: seq<Note>, pitch: int, j: nat)
    requires j < |s| && EndsNote(s[j], pitch)
    requires forall m :: 0 <= m < j ==> !EndsNote(s[m], pitch)
    ensures Held(s, pitch) == SumNoteTimes(s[..j + 1])
  {
    if j == 0 {
      assert s[..1][..0] == [];
    } else {
      HeldSpan(s[1..], pitch, j - 1);
      assert s[..j + 1] == [s[0]] + s[1..][..j];
      SumNoteTimesAppend([s[0]], s[1..][..j]);
      assert [s[0]][..0] == [];
    }
  }

  /** Corrected, a note_on at i whose note_off is entry j is held for exactly
      the time between them on the timeline the relative times build. */
  lemma HeldFixedElapsed(rel: seq<Note>, i: nat, j: nat)
    requires i < j < |rel| && rel[i].kind == NoteOn && EndsNote(rel[j], rel[i].note)
    requires forall m :: i < m < j ==> !EndsNote(rel[m], rel[i].note)
    ensures EmissionFixed(rel, i)[|EmissionFixed(rel, i)| - 1].time
         == SumNoteTimes(rel[..j + 1]) - SumNoteTimes(rel[..i + 1])
  {
    var s := rel[i + 1..];
    HeldSpan(s, rel[i].note, j - i - 1);
    assert rel[..j + 1] == rel[..i + 1] + s[..j - i];
    SumNoteTimesAppend(rel[..i + 1], s[..j - i]);
  }

  // ---------------------------------------------------------------------------
  // OneTrackOnOnlyOrdered: bubbling pitches between markers

  /** A Python list index: a negative j counts from the end. */
  function PyIndex(n: int, j: int): (r: nat)
    requires -n <= j < n
    ensures r < n
  {
    if j < 0 then n + j else j
  }

  /** a.note, b.note = b.note, a.note: only the pitches move. */
  function SwapNotes(s: seq<Note>, a: nat, b: nat): (r: seq<Note>)
    requires a < |s| && b < |s|
    ensures |r| == |s| && r[a].note == s[b].note && r[b].note == s[a].note
    ensures forall p :: 0 <= p < |s| ==> r[p] == s[p].(note := r[p].note)
    ensures forall p :: 0 <= p < |s| && p != a && p != b ==> r[p] == s[p]
  {
    s[a := s[a].(note := s[b].note)][b := s[b].(note := s[a].note)]
  }

  /** The forward loop of _orderNote, c = 1, 2, ...: while the moving pitch
      (now at i + c - 1) is above the next one, swap them. As written
      (bounded false) nothing stops i + c at the end of the list: None stands
      for the IndexError. The bounded loop stops there instead. */
  function Forward(s: seq<Note>, note: int, i: nat, c: nat, bounded: bool): (r: Option<seq<Note>>)
    requires 1 <= c && i + c - 1 < |s|
    ensures r.Some? ==> |r.value| == |s|
    ensures bounded ==> r.Some?
    decreases |s| - (i + c)
  {
    if i + c >= |s| then (if bounded then Some(s) else None)
    else if note > s[i + c].note then Forward(SwapNotes(s, i + c, i + c - 1), note, i, c + 1, bounded)
    else Some(s)
  }

  /** The backward loop: while the moving pitch (now at i - c + 1) is below
      the previous one and that one is not a marker, swap them. As written the
      index i - c goes negative and, as Python indexing does, wraps to the end
      of the list; None once it passes -len (an IndexError). The bounded loop
      stops at index 0. */
  function Backward(s: seq<Note>, note: int, i: nat, c: nat, bounded: bool): (r: Option<seq<Note>>)
    requires i < |s| && 1 <= c
    ensures r.Some? ==> |r.value| == |s|
    ensures bounded ==> r.Some?
    decreases |s| + i - c
  {
    var j := i - c;
    if bounded && j < 0 then Some(s)
    else if j < -|s| then None
    else
      var a := PyIndex(|s|, j);
      if note < s[a].note && s[a].note < MarkerPitch then Backward(SwapNotes(s, a, PyIndex(|s|, j + 1)), note, i, c + 1, bounded)
      else Some(s)
  }

  /** _orderNote(length, i) with length = len(notesTimed): the new list and
      isDone, or None for an IndexError. */
  function OrderNote(s: seq<Note>, i: nat, bounded: bool): (r: Option<(seq<Note>, bool)>)
    requires i < |s|
    ensures r.Some? ==> |r.value.0| == |s|
    ensures bounded ==> r.Some?
  {
    var note := s[i].note;
    if note < MarkerPitch && i < |s| - 1 && note > s[i + 1].note then
      var t := Forward(s, note, i, 1, bounded);
      if t.None? then None else Some((t.value, false))
    else if note < MarkerPitch && i > 0 && note < s[i - 1].note then
      var t := Backward(s, note, i, 1, bounded);
      if t.None? then None else Some((t.value, !(s[i - 1].note < MarkerPitch)))
    else Some((s, true))
  }

  /** One pass of _orderAll from index i: the list and whether every
      _orderNote so far reported isDone. */
  function OrderPass(s: seq<Note>, i: nat, done: bool, bounded: bool): (r: Option<(seq<Note>, bool)>)
    ensures r.Some? ==> |r.value.0| == |s|
    ensures bounded ==> r.Some?
    decreases |s| - i
  {
    if i >= |s| then Some((s, done))
    else
      var r := OrderNote(s, i, bounded);
      if r.None? then None
      else OrderPass(r.value.0, i + 1, done && r.value.1, bounded)
  }

  datatype OrderResult = Ordered(notes: seq<Note>) | IndexError | OutOfFuel

  /** _orderAll: passes until one reports isDone everywhere. The source loops
      without bound; here at most fuel passes are made. */
  function OrderAll(s: seq<Note>, fuel: nat, bounded: bool): (r: OrderResult)
    ensures r.Ordered? ==> |r.notes| == |s|
    ensures bounded ==> !r.IndexError?
    decreases fuel
  {
    if fuel == 0 then OutOfFuel
    else
      var r := OrderPass(s, 0, true, bounded);
      if r.None? then IndexError
      else if r.value.1 then Ordered(r.value.0)
      else OrderAll(r.value.0, fuel - 1, bounded)
  }

  // Properties of the ordering

  /** Pitches of 300 and above (the time-unit markers) stay where they are. */
  ghost predicate MarkersKept(s: seq<Note>, r: seq<Note>) {
    |r| == |s| && forall p :: 0 <= p < |s| && s[p].note >= MarkerPitch ==> r[p].note == s[p].note
  }

  /** Ordering moves pitches only: the markers and every other field stay at
      their positions, and the pitches are permuted. */
  ghost predicate SameFrame(s: seq<Note>, r: seq<Note>) {
    MarkersKept(s, r)
    && (forall p :: 0 <= p < |s| ==> r[p] == s[p].(note := r[p].note))
    && multiset(Map(r, PitchOf)) == multiset(Map(s, PitchOf))
  }

  /** No pitch crosses a marker: before every marker the same pitches are
      found, in some order. */
  ghost predicate GroupsKept(s: seq<Note>, r: seq<Note>)
    requires |r| == |s|
  {
    forall p :: 0 <= p < |s| && s[p].note >= MarkerPitch ==> multiset(Map(r[..p], PitchOf)) == multiset(Map(s[..p], PitchOf))
  }

  /** Within every run of pitches below 300, each is at most the next. */
  ghost predicate RunsAscending(s: seq<Note>) {
    forall p :: 0 <= p < |s| - 1 && s[p].note < MarkerPitch ==> s[p].note <= s[p + 1].note
  }

  lemma SwapFrame(s: seq<Note>, a: nat, b: nat)
    requires a < |s| && b < |s| && s[a].note < MarkerPitch && s[b].note < MarkerPitch
    ensures SameFrame(s, SwapNotes(s, a, b))
  {
    var ps := Map(s, PitchOf);
    assert Map(SwapNotes(s, a, b), PitchOf) == ps[a := s[b].note][b := s[a].note];
  }

  /** A swap of two pitches below 300 followed by a frame-keeping change keeps
      the frame. */
  lemma SwapThenFrame(s: seq<Note>, a: nat, b: nat, t: seq<Note>, r: seq<Note>)
    requires a < |s| && b < |s| && s[a].note < MarkerPitch && s[b].note < MarkerPitch
    requires t == SwapNotes(s, a, b) && SameFrame(t, r)
    ensures SameFrame(s, r)
  {
    SwapFrame(s, a, b);
    SameFrameTrans(s, t, r);
  }

  lemma SameFrameRefl(s: seq<Note>)
    ensures SameFrame(s, s)
  {
  }

  lemma SameFrameTrans(s: seq<Note>, t: seq<Note>, u: seq<Note>)
    ensures SameFrame(s, t) && SameFrame(t, u) ==> SameFrame(s, u)
  {
  }

  /** The pitches before p are untouched or only exchanged among themselves. */
  lemma SwapPrefix(s: seq<Note>, a: nat, b: nat, p: nat)
    requires a < |s| && b < |s| && p <= |s| && (p <= a) == (p <= b)
    ensures multiset(Map(SwapNotes(s, a, b)[..p], PitchOf)) == multiset(Map(s[..p], PitchOf))
  {
    var r := SwapNotes(s, a, b);
    if p <= a {
      assert r[..p] == s[..p];
    } else {
      var ps := Map(s[..p], PitchOf);
      assert Map(r[..p], PitchOf) == ps[a := s[b].note][b := s[a].note];
    }
  }

  /** Swapping two neighbours below 300 keeps every group. */
  lemma SwapNeighboursGroups(s: seq<Note>, a: nat, b: nat)
    requires a < |s| && b < |s| && (b == a + 1 || a == b + 1)
    requires s[a].note < MarkerPitch && s[b].note < MarkerPitch
    ensures MarkersKept(s, SwapNotes(s, a, b)) && GroupsKept(s, SwapNotes(s, a, b))
  {
    forall p | 0 <= p < |s| && s[p].note >= MarkerPitch
      ensures multiset(Map(SwapNotes(s, a, b)[..p], PitchOf)) == multiset(Map(s[..p], PitchOf))
    {
      SwapPrefix(s, a, b, p);
    }
  }

  lemma GroupsKeptTrans(s: seq<Note>, t: seq<Note>, u: seq<Note>)
    ensures MarkersKept(s, t) && MarkersKept(t, u) && GroupsKept(s, t) && GroupsKept(t, u)
        ==> MarkersKept(s, u) && GroupsKept(s, u)
  {
  }

  /** Whether the forward loop swaps at step c. */
  predicate ForwardSwaps(s: seq<Note>, note: int, i: nat, c: nat) {
    i + c < |s| && note > s[i + c].note
  }

  /** A swapping step: the rest of the loop works on the swapped list, where
      the moving pitch now sits one place further on. */
  lemma ForwardSwapStep(s: seq<Note>, note: int, i: nat, c: nat, bounded: bool, r: seq<Note>) returns (t: seq<Note>)
    requires 1 <= c && i + c - 1 < |s| && note < MarkerPitch && s[i + c - 1].note == note
    requires Forward(s, note, i, c, bounded) == Some(r) && ForwardSwaps(s, note, i, c)
    ensures i + c < |s| && t == SwapNotes(s, i + c, i + c - 1)
    ensures i + c < |t| && t[i + c].note == note && s[i + c].note < MarkerPitch
    ensures Forward(t, note, i, c + 1, bounded) == Some(r)
  {
    t := SwapNotes(s, i + c, i + c - 1);
  }

  /** A step that does not swap ends the loop with the list unchanged. */
  lemma ForwardStops(s: seq<Note>, note: int, i: nat, c: nat, bounded: bool, r: seq<Note>)
    requires 1 <= c && i + c - 1 < |s|
    requires Forward(s, note, i, c, bounded) == Some(r) && !ForwardSwaps(s, note, i, c)
    ensures r == s
  {
  }

  /** Every swap of the forward loop exchanges the moving pitch with a lower
      one: the frame is kept. */
  lemma {:induction false} ForwardFrame(s: seq<Note>, note: int, i: nat, c: nat, bounded: bool, r: seq<Note>)
    requires 1 <= c && i + c - 1 < |s| && note < MarkerPitch && s[i + c - 1].note == note
    requires Forward(s, note, i, c, bounded) == Some(r)
    ensures SameFrame(s, r)
    decreases |s| - (i + c)
  {
    if ForwardSwaps(s, note, i, c) {
      var t := ForwardSwapStep(s, note, i, c, bounded, r);
      ForwardFrame(t, note, i, c + 1, bounded, r);
      SwapThenFrame(s, i + c, i + c - 1, t, r);
    } else {
      ForwardStops(s, note, i, c, bounded, r);
      SameFrameRefl(s);
    }
  }

  /** ... and it only swaps neighbours, so the groups are kept. */
  lemma {:induction false} ForwardGroups(s: seq<Note>, note: int, i: nat, c: nat, bounded: bool, r: seq<Note>)
    requires 1 <= c && i + c - 1 < |s| && note < MarkerPitch && s[i + c - 1].note == note
    requires Forward(s, note, i, c, bounded) == Some(r)
    ensures MarkersKept(s, r) && GroupsKept(s, r)
    decreases |s| - (i + c)
  {
    if ForwardSwaps(s, note, i, c) {
      var t := ForwardSwapStep(s, note, i, c, bounded, r);
      SwapNeighboursGroups(s, i + c, i + c - 1);
      ForwardGroups(t, note, i, c + 1, bounded, r);
      GroupsKeptTrans(s, t, r);
    } else {
      ForwardStops(s, note, i, c, bounded, r);
    }
  }

  /** The backward loop keeps the frame, wrapping or not. */
  lemma {:induction false} BackwardFrame(s: seq<Note>, note: int, i: nat, c: nat, bounded: bool, r: seq<Note>)
    requires i < |s| && 1 <= c && -|s| < i - c + 1
    requires note < MarkerPitch && s[PyIndex(|s|, i - c + 1)].note == note
    requires Backward(s, note, i, c, bounded) == Some(r)
    ensures SameFrame(s, r)
    decreases |s| + i - c
  {
    if BackwardSwaps(s, note, i, c, bounded) {
      var a, b, t := BackwardSwapStep(s, note, i, c, bounded, r);
      BackwardFrame(t, note, i, c + 1, bounded, r);
      SwapThenFrame(s, a, b, t, r);
    } else {
      BackwardStops(s, note, i, c, bounded, r);
      SameFrameRefl(s);
    }
  }

  /** Whether the backward loop swaps at step c. */
  predicate BackwardSwaps(s: seq<Note>, note: int, i: nat, c: nat, bounded: bool)
    requires i < |s|
  {
    var j := i - c;
    !(bounded && j < 0) && j >= -|s| && j + 1 < |s|
    && note < s[PyIndex(|s|, j)].note && s[PyIndex(|s|, j)].note < MarkerPitch
  }

  /** A swapping step: the rest of the loop works on the swapped list, where
      the moving pitch now sits one place further back. */
  lemma BackwardSwapStep(s: seq<Note>, note: int, i: nat, c: nat, bounded: bool, r: seq<Note>)
      returns (a: nat, b: nat, t: seq<Note>)
    requires i < |s| && 1 <= c && -|s| < i - c + 1
    requires note < MarkerPitch && s[PyIndex(|s|, i - c + 1)].note == note
    requires Backward(s, note, i, c, bounded) == Some(r)
    requires BackwardSwaps(s, note, i, c, bounded)
    ensures a == PyIndex(|s|, i - c) && b == PyIndex(|s|, i - c + 1)
    ensures a < |s| && b < |s| && t == SwapNotes(s, a, b)
    ensures -|t| < i - (c + 1) + 1 && t[PyIndex(|t|, i - (c + 1) + 1)].note == note
    ensures s[a].note < MarkerPitch && s[b].note < MarkerPitch
    ensures Backward(t, note, i, c + 1, bounded) == Some(r)
  {
    a, b := PyIndex(|s|, i - c), PyIndex(|s|, i - c + 1);
    t := SwapNotes(s, a, b);
  }

  /** A step that does not swap ends the loop with the list unchanged. */
  lemma BackwardStops(s: seq<Note>, note: int, i: nat, c: nat, bounded: bool, r: seq<Note>)
    requires i < |s| && 1 <= c && -|s| < i - c + 1
    requires Backward(s, note, i, c, bounded) == Some(r)
    requires !BackwardSwaps(s, note, i, c, bounded)
    ensures r == s
  {
  }

  /** The bounded backward loop only swaps neighbours: the groups are kept. */
  lemma {:induction false} BackwardBoundedGroups(s: seq<Note>, note: int, i: nat, c: nat, r: seq<Note>)
    requires i < |s| && 1 <= c <= i + 1
    requires note < MarkerPitch && s[i - c + 1].note == note
    requires Backward(s, note, i, c, true) == Some(r)
    ensures MarkersKept(s, r) && GroupsKept(s, r)
    decreases i + 1 - c
  {
    var j := i - c;
    assert PyIndex(|s|, j + 1) == j + 1;
    if BackwardSwaps(s, note, i, c, true) {
      assert PyIndex(|s|, j) == j;
      var a, b, t := BackwardSwapStep(s, note, i, c, true, r);
      SwapNeighboursGroups(s, j, j + 1);
      BackwardBoundedGroups(t, note, i, c + 1, r);
      GroupsKeptTrans(s, t, r);
    } else {
      BackwardStops(s, note, i, c, true, r);
    }
  }

  lemma OrderNoteFrame(s: seq<Note>, i: nat, bounded: bool)
    requires i < |s| && OrderNote(s, i, bounded).Some?
    ensures SameFrame(s, OrderNote(s, i, bounded).value.0)
  {
    var note := s[i].note;
    if note < MarkerPitch && i < |s| - 1 && note > s[i + 1].note {
      ForwardFrame(s, note, i, 1, bounded, Forward(s, note, i, 1, bounded).value);
    } else if note < MarkerPitch && i > 0 && note < s[i - 1].note {
      BackwardFrame(s, note, i, 1, bounded, Backward(s, note, i, 1, bounded).value);
    }
  }

  lemma OrderNoteGroups(s: seq<Note>, i: nat, bounded: bool)
    requires i < |s| && bounded
    ensures MarkersKept(s, OrderNote(s, i, bounded).value.0)
    ensures GroupsKept(s, OrderNote(s, i, bounded).value.0)
  {
    var note := s[i].note;
    if note < MarkerPitch && i < |s| - 1 && note > s[i + 1].note {
      ForwardGroups(s, note, i, 1, bounded, Forward(s, note, i, 1, bounded).value);
    } else if note < MarkerPitch && i > 0 && note < s[i - 1].note {
      BackwardBoundedGroups(s, note, i, 1, Backward(s, note, i, 1, bounded).value);
    }
  }

  /** An _orderNote that reports isDone has changed nothing, and the pitch it
      looked at, if below 300, is at most the next one. */
  lemma OrderNoteDone(s: seq<Note>, i: nat, bounded: bool)
    requires i < |s| && OrderNote(s, i, bounded).Some? && OrderNote(s, i, bounded).value.1
    ensures OrderNote(s, i, bounded).value.0 == s
    ensures s[i].note < MarkerPitch && i < |s| - 1 ==> s[i].note <= s[i + 1].note
  {
    var note := s[i].note;
    if note < MarkerPitch && i > 0 && note < s[i - 1].note && !(note < MarkerPitch && i < |s| - 1 && note > s[i + 1].note) {
      assert Backward(s, note, i, 1, bounded) == Some(s);
    }
  }

  /** A pass keeps the frame. */
  lemma {:induction false} OrderPassFrame(s: seq<Note>, i: nat, done: bool, bounded: bool)
    requires OrderPass(s, i, done, bounded).Some?
    ensures SameFrame(s, OrderPass(s, i, done, bounded).value.0)
    decreases |s| - i
  {
    if i < |s| {
      var n := OrderNote(s, i, bounded).value;
      var rest := OrderPass(n.0, i + 1, done && n.1, bounded);
      assert OrderPass(s, i, done, bounded) == rest;
      OrderNoteFrame(s, i, bounded);
      OrderPassFrame(n.0, i + 1, done && n.1, bounded);
      SameFrameTrans(s, n.0, rest.value.0);
    }
  }

  /** The bounded pass keeps the groups. */
  lemma {:induction false} OrderPassGroups(s: seq<Note>, i: nat, done: bool, bounded: bool)
    requires bounded
    ensures MarkersKept(s, OrderPass(s, i, done, bounded).value.0)
    ensures GroupsKept(s, OrderPass(s, i, done, bounded).value.0)
    decreases |s| - i
  {
    if i < |s| {
      var n := OrderNote(s, i, bounded).value;
      OrderNoteGroups(s, i, bounded);
      OrderPassGroups(n.0, i + 1, done && n.1, bounded);
      GroupsKeptTrans(s, n.0, OrderPass(n.0, i + 1, done && n.1, bounded).value.0);
    }
  }

  /** A pass that reports isDone has changed nothing, and every pitch below
      300 from index i on is at most the next one. */
  lemma {:induction false} OrderPassDone(s: seq<Note>, i: nat, done: bool, bounded: bool)
    requires OrderPass(s, i, done, bounded).Some? && OrderPass(s, i, done, bounded).value.1
    ensures done && OrderPass(s, i, done, bounded).value.0 == s
    ensures forall p :: i <= p < |s| - 1 && s[p].note < MarkerPitch ==> s[p].note <= s[p + 1].note
    decreases |s| - i
  {
    if i < |s| {
      var n := OrderNote(s, i, bounded).value;
      OrderPassDone(n.0, i + 1, done && n.1, bounded);
      OrderNoteDone(s, i, bounded);
    }
  }

  /** What _orderAll promises when it returns: the pitches are permuted
      without touching the other fields or the markers, and every run of
      pitches below 300 is in ascending order. The bounded loops never raise
      and never move a pitch across a marker. */
  lemma {:induction false} OrderAllOrdered(s: seq<Note>, fuel: nat, bounded: bool)
    requires OrderAll(s, fuel, bounded).Ordered?
    ensures var r := OrderAll(s, fuel, bounded).notes;
      SameFrame(s, r) && RunsAscending(r)
    decreases fuel
  {
    var p := OrderPass(s, 0, true, bounded).value;
    OrderPassFrame(s, 0, true, bounded);
    if p.1 {
      OrderPassDone(s, 0, true, bounded);
    } else {
      OrderAllOrdered(p.0, fuel - 1, bounded);
      SameFrameTrans(s, p.0, OrderAll(p.0, fuel - 1, bounded).notes);
    }
  }

  /** The bounded loops never raise and never move a pitch across a marker. */
  lemma {:induction false} OrderAllBoundedGroups(s: seq<Note>, fuel: nat, bounded: bool)
    requires bounded && OrderAll(s, fuel, bounded).Ordered?
    ensures GroupsKept(s, OrderAll(s, fuel, bounded).notes)
    decreases fuel
  {
    var p := OrderPass(s, 0, true, bounded).value;
    OrderPassGroups(s, 0, true, bounded);
    if !p.1 {
      OrderAllBoundedGroups(p.0, fuel - 1, bounded);
      OrderAllOrdered(p.0, fuel - 1, bounded);
      GroupsKeptTrans(s, p.0, OrderAll(p.0, fuel - 1, bounded).notes);
    }
  }

  // Two inputs on which the unbounded loops go wrong

  /** A timed note_on of one unit, as _calculateNoteOns appends. */
  function On(pitch: int): Note {
    Note(pitch, 1, NoteOn, 100, 0)
  }

  /** A final group in descending order: the forward loop runs off the end
      of the list and _orderAll raises, where the bounded loop sorts it. */
  lemma OrderAllEndCrash()
    ensures OrderAll([On(70), On(60)], 1, false) == IndexError
    ensures OrderAll([On(70), On(60)], 2, true) == Ordered([On(60), On(70)])
  {
    var s := [On(70), On(60)];
    assert Forward(s, 70, 0, 1, false) == None;
    var t := SwapNotes(s, 1, 0);
    assert t == [On(60), On(70)];
    assert Forward(s, 70, 0, 1, true) == Some(t);
    assert OrderPass(s, 0, true, true) == Some((t, false));
    assert OrderPass(t, 0, true, true) == Some((t, true));
  }

  /** A descending chord before the first marker, then one more note. */
  function WrapInput(): seq<Note> {
    [On(80), On(60), On(50), Marker(1), On(90)]
  }

  /** The first unbounded pass: at index 1 the backward loop passes index 0
      and swaps 50 with the last note. */
  lemma WrapFirstPass()
    ensures OrderPass(WrapInput(), 0, true, false) == Some(([On(90), On(60), On(80), Marker(1), On(50)], false))
  {
    var s := WrapInput();
    var s1 := [On(90), On(60), On(80), Marker(1), On(50)];
    var u := [On(60), On(80), On(50), Marker(1), On(90)];
    var t1 := [On(60), On(50), On(80), Marker(1), On(90)];
    var t2 := [On(50), On(60), On(80), Marker(1), On(90)];
    assert SwapNotes(s, 1, 0) == u && SwapNotes(u, 2, 1) == t1;
    assert Forward(t1, 80, 0, 3, false) == Some(t1);
    assert Forward(s, 80, 0, 1, false) == Some(t1);
    assert OrderNote(s, 0, false) == Some((t1, false));
    assert SwapNotes(t1, 0, 1) == t2 && SwapNotes(t2, 4, 0) == s1;
    assert Backward(s1, 50, 1, 3, false) == Some(s1);
    assert Backward(t1, 50, 1, 1, false) == Some(s1);
    assert OrderNote(t1, 1, false) == Some((s1, false));
    assert OrderPass(s1, 2, false, false) == Some((s1, false));
  }

  lemma WrapSecondPass()
    ensures OrderPass([On(90), On(60), On(80), Marker(1), On(50)], 0, true, false)
         == Some(([On(60), On(80), On(90), Marker(1), On(50)], false))
  {
    var s1 := [On(90), On(60), On(80), Marker(1), On(50)];
    var s2 := [On(60), On(80), On(90), Marker(1), On(50)];
    var v := [On(60), On(90), On(80), Marker(1), On(50)];
    assert SwapNotes(s1, 1, 0) == v && SwapNotes(v, 2, 1) == s2;
    assert Forward(s2, 90, 0, 3, false) == Some(s2);
    assert Forward(s1, 90, 0, 1, false) == Some(s2);
    assert OrderNote(s1, 0, false) == Some((s2, false));
    assert OrderPass(s2, 1, false, false) == Some((s2, false));
  }

  lemma WrapBoundedPass()
    ensures OrderPass(WrapInput(), 0, true, true) == Some(([On(50), On(60), On(80), Marker(1), On(90)], false))
  {
    var s := WrapInput();
    var u := [On(60), On(80), On(50), Marker(1), On(90)];
    var t1 := [On(60), On(50), On(80), Marker(1), On(90)];
    var b := [On(50), On(60), On(80), Marker(1), On(90)];
    assert SwapNotes(s, 1, 0) == u && SwapNotes(u, 2, 1) == t1;
    assert Forward(t1, 80, 0, 3, true) == Some(t1);
    assert Forward(s, 80, 0, 1, true) == Some(t1);
    assert OrderNote(s, 0, true) == Some((t1, false));
    assert SwapNotes(t1, 0, 1) == b;
    assert Backward(t1, 50, 1, 1, true) == Some(b);
    assert OrderPass(b, 2, false, true) == Some((b, false));
  }

  /** The third pass finds every note in place. */
  lemma WrapThirdPass()
    ensures var s2 := [On(60), On(80), On(90), Marker(1), On(50)];
      OrderPass(s2, 0, true, false) == Some((s2, true))
  {
    var s2 := [On(60), On(80), On(90), Marker(1), On(50)];
    assert OrderNote(s2, 4, false) == Some((s2, true));
    assert OrderNote(s2, 3, false) == Some((s2, true));
    assert OrderPass(s2, 3, true, false) == Some((s2, true));
  }

  lemma WrapAsWritten()
    ensures OrderAll(WrapInput(), 3, false) == Ordered([On(60), On(80), On(90), Marker(1), On(50)])
  {
    var s1 := [On(90), On(60), On(80), Marker(1), On(50)];
    var s2 := [On(60), On(80), On(90), Marker(1), On(50)];
    WrapFirstPass();
    WrapSecondPass();
    WrapThirdPass();
    assert OrderAll(s2, 1, false) == Ordered(s2);
    assert OrderAll(s1, 2, false) == Ordered(s2);
  }

  lemma WrapBounded()
    ensures OrderAll(WrapInput(), 2, true) == Ordered([On(50), On(60), On(80), Marker(1), On(90)])
  {
    var b := [On(50), On(60), On(80), Marker(1), On(90)];
    WrapBoundedPass();
    assert Backward(b, 90, 4, 1, true) == Some(b);
    assert OrderNote(b, 4, true) == Some((b, true));
    assert OrderNote(b, 3, true) == Some((b, true));
    assert OrderNote(b, 2, true) == Some((b, true));
    assert OrderPass(b, 2, true, true) == Some((b, true));
    assert OrderPass(b, 0, true, true) == Some((b, true));
  }

  lemma WrapCrossesMarker()
    ensures !GroupsKept(WrapInput(), [On(60), On(80), On(90), Marker(1), On(50)])
  {
    var s := WrapInput();
    var s2 := [On(60), On(80), On(90), Marker(1), On(50)];
    assert s[3].note >= MarkerPitch;
    var m, m2 := Map(s[..3], PitchOf), Map(s2[..3], PitchOf);
    assert m2[2] == 90;
    assert m == [80, 60, 50];
    assert 90 in multiset(m2) && 90 !in multiset(m);
  }

  /** On that input the backward loop wraps round to the last note, so 50 and
      90 trade places across the marker and the first group no longer holds
      its own pitches. The bounded loop sorts the chord in place. */
  lemma OrderAllWrapsRound()
    ensures OrderAll(WrapInput(), 3, false) == Ordered([On(60), On(80), On(90), Marker(1), On(50)])
    ensures !GroupsKept(WrapInput(), OrderAll(WrapInput(), 3, false).notes)
    ensures OrderAll(WrapInput(), 2, true) == Ordered([On(50), On(60), On(80), Marker(1), On(90)])
  {
    WrapAsWritten();
    WrapBounded();
    WrapCrossesMarker();
  }

  // ---------------------------------------------------------------------------
  // _dropDuplicates

  /** The test _dropDuplicates applies at index i: an interior pitch below 300
      equal to one of its neighbours. */
  predicate Duplicated(s: seq<Note>, i: nat)
    requires i < |s|
  {
    s[i].note < MarkerPitch && 0 < i < |s| - 1 && (s[i].note == s[i + 1].note || s[i].note == s[i - 1].note)
  }

  /** The list _dropDuplicates leaves when its enumeration is at index i. The
      removal shifts the next entry into place i, and the enumeration moves
      past it anyway. */
  function DropFrom(s: seq<Note>, i: nat): seq<Note>
    decreases |s| - i
  {
    if i >= |s| then s
    else if Duplicated(s, i) then DropFrom(Delete(s, i), i + 1)
    else DropFrom(s, i + 1)
  }

  /** The repair: after a removal index i is looked at again. */
  function DropFixedFrom(s: seq<Note>, i: nat): seq<Note>
    requires i <= |s|
    decreases |s| - i
  {
    if i == |s| then s
    else if Duplicated(s, i) then DropFixedFrom(Delete(s, i), i)
    else DropFixedFrom(s, i + 1)
  }

  /** Nothing is left that the test would remove. */
  ghost predicate NoDuplicates(s: seq<Note>) {
    forall i :: 0 <= i < |s| ==> !Duplicated(s, i)
  }

  predicate IsMarkerPitch(n: Note) {
    n.note >= MarkerPitch
  }

  /** Every pitch left after a removal was there before. */
  lemma DeletePitchesFrom(s: seq<Note>, i: nat)
    requires i < |s|
    ensures forall x :: x in Map(Delete(s, i), PitchOf) ==> x in Map(s, PitchOf)
  {
    var t := Delete(s, i);
    var ms, mt := Map(s, PitchOf), Map(t, PitchOf);
    forall x | x in mt
      ensures x in ms
    {
      var k :| 0 <= k < |t| && mt[k] == x;
      if k < i {
        assert t[k] == t[..i][k] == s[k];
        assert ms[k] == x;
      } else {
        assert ms[k + 1] == x;
      }
    }
  }

  /** Removing a duplicated entry loses no pitch: its equal neighbour stays. */
  lemma DeletePitchesKept(s: seq<Note>, i: nat)
    requires i < |s| && Duplicated(s, i)
    ensures forall x :: x in Map(s, PitchOf) ==> x in Map(Delete(s, i), PitchOf)
  {
    var t := Delete(s, i);
    var ms, mt := Map(s, PitchOf), Map(t, PitchOf);
    if s[i].note == s[i + 1].note {
      assert mt[i] == ms[i];
    } else {
      assert t[i - 1] == t[..i][i - 1] == s[i - 1];
      assert mt[i - 1] == ms[i];
    }
    forall x | x in ms
      ensures x in mt
    {
      var k :| 0 <= k < |s| && ms[k] == x;
      if k < i {
        assert t[k] == t[..i][k] == s[k];
        assert mt[k] == x;
      } else if k > i {
        assert mt[k - 1] == x;
      }
    }
  }

  /** Removing a duplicated entry keeps every pitch value. */
  lemma DeleteDuplicatedPitches(s: seq<Note>, i: nat)
    requires i < |s| && Duplicated(s, i)
    ensures forall x :: x in Map(Delete(s, i), PitchOf) <==> x in Map(s, PitchOf)
  {
    DeletePitchesFrom(s, i);
    DeletePitchesKept(s, i);
  }

  /** Removing a pitch below 300 from inside a list keeps ascending runs
      ascending. */
  lemma DeleteAscending(s: seq<Note>, i: nat)
    requires 0 < i < |s| - 1 && s[i].note < MarkerPitch && RunsAscending(s)
    ensures RunsAscending(Delete(s, i))
  {
    var t := Delete(s, i);
    forall p | 0 <= p < |t| - 1 && t[p].note < MarkerPitch
      ensures t[p].note <= t[p + 1].note
    {
      if p == i - 1 {
        assert s[i - 1].note <= s[i].note <= s[i + 1].note;
      } else if p < i - 1 {
        assert t[p + 1] == s[p + 1];
      }
    }
  }

  /** What both versions promise: the markers stay, in order; the list only
      gets shorter; every pitch value survives; ascending runs stay
      ascending. */
  lemma {:induction false} DropKeeps(s: seq<Note>, i: nat, fixed: bool)
    requires fixed ==> i <= |s|
    ensures var r := if fixed then DropFixedFrom(s, i) else DropFrom(s, i);
      |r| <= |s|
      && Filter(r, IsMarkerPitch) == Filter(s, IsMarkerPitch)
      && (forall x :: x in Map(r, PitchOf) <==> x in Map(s, PitchOf))
      && (RunsAscending(s) ==> RunsAscending(r))
    decreases |s| - i
  {
    if i < |s| {
      if Duplicated(s, i) {
        FilterDelete(s, i, IsMarkerPitch);
        DeleteDuplicatedPitches(s, i);
        if RunsAscending(s) {
          DeleteAscending(s, i);
        }
        DropKeeps(Delete(s, i), if fixed then i else i + 1, fixed);
      } else {
        DropKeeps(s, i + 1, fixed);
      }
    }
  }

  /** Position q of s was taken out as a duplicate: a pitch below 300 equal to
      the pitch at some other position p, every position between them having
      been taken out too, so that the two were neighbours when q went. */
  ghost predicate BesideEqual(s: seq<Note>, f: seq<int>, q: int)
    requires 0 <= q < |s|
  {
    && s[q].note < MarkerPitch
    && exists p :: 0 <= p < |s| && p != q && s[p].note == s[q].note
         && forall m :: (p < m < q || q < m < p) ==> m !in f
  }

  /** Every position of s that f does not keep was taken out as a duplicate. */
  ghost predicate RemovedOnlyBeside(s: seq<Note>, f: seq<int>) {
    forall q :: 0 <= q < |s| && q !in f ==> BesideEqual(s, f, q)
  }

  /** A duplicate taken out of Delete(s, i) at q' was one in s at q' + 1. */
  lemma BesideLift(s: seq<Note>, i: nat, g: seq<int>, q': nat)
    requires i < |s|
    requires forall j :: 0 <= j < |g| ==> 0 <= g[j] < |s| - 1
    requires i <= q' < |s| - 1 && BesideEqual(Delete(s, i), g, q')
    ensures BesideEqual(s, Compose(Skip(|s|, i), g), q' + 1)
  {
    var t := Delete(s, i);
    var p' :| 0 <= p' < |t| && p' != q' && t[p'].note == t[q'].note
      && forall m :: (p' < m < q' || q' < m < p') ==> m !in g;
    var p := if p' < i then p' else p' + 1;
    if p' < i {
      assert t[p'] == t[..i][p'];
    }
    assert s[p] == t[p'] && s[q' + 1] == t[q'];
    ComposeSkipBetween(g, |s|, i, p', q');
  }

  /** The positions f keeps of s: kept in order, those before i among them, and
      each one taken out, at i or later, a duplicate beside an equal pitch. */
  ghost predicate DropTrace(f: seq<int>, r: seq<Note>, s: seq<Note>, i: nat) {
    && Embeds(f, r, s)
    && (if i <= |s| then i else |s|) <= |f|
    && (forall j :: 0 <= j < i && j < |f| ==> f[j] == j)
    && (forall q :: 0 <= q < |s| && q !in f ==> i <= q && BesideEqual(s, f, q))
  }

  /** Past the end nothing is taken out. */
  lemma DropTraceDone(s: seq<Note>, i: nat)
    requires |s| <= i
    ensures DropTrace(Identity(|s|), s, s, i)
  {
    var f := Identity(|s|);
    EmbedsIdentity(s);
    forall q | 0 <= q < |s| ensures q in f {
      assert f[q] == q;
    }
  }

  /** Removing the duplicate at i and tracing the rest from i (repaired) or
      i + 1 (as written) traces the whole enumeration from i. */
  lemma DropDeleteStep(s: seq<Note>, i: nat, g: seq<int>, r: seq<Note>, next: nat)
    requires i < |s| && Duplicated(s, i)
    requires next == i || next == i + 1
    requires DropTrace(g, r, Delete(s, i), next)
    ensures DropTrace(Compose(Skip(|s|, i), g), r, s, i)
  {
    var t, d := Delete(s, i), Skip(|s|, i);
    DeleteEmbeds(s, i);
    EmbedsCompose(g, d, r, t, s);
    DropDeletedBeside(s, i, g, next);
  }

  /** The positions taken out by that step and by the rest of the trace. */
  lemma DropDeletedBeside(s: seq<Note>, i: nat, g: seq<int>, next: nat)
    requires i < |s| && Duplicated(s, i)
    requires next == i || next == i + 1
    requires forall j :: 0 <= j < |g| ==> 0 <= g[j] < |s| - 1
    requires (if next <= |s| - 1 then next else |s| - 1) <= |g|
    requires forall j :: 0 <= j < next && j < |g| ==> g[j] == j
    requires forall q :: 0 <= q < |s| - 1 && q !in g ==> next <= q && BesideEqual(Delete(s, i), g, q)
    ensures var f := Compose(Skip(|s|, i), g);
      && (if i <= |s| then i else |s|) <= |f|
      && (forall j :: 0 <= j < i && j < |f| ==> f[j] == j)
      && (forall q :: 0 <= q < |s| && q !in f ==> i <= q && BesideEqual(s, f, q))
  {
    var f := Compose(Skip(|s|, i), g);
    forall q | 0 <= q < i ensures q in f {
      assert f[q] == q;
    }
    forall q | 0 <= q < |s| && q !in f ensures i <= q && BesideEqual(s, f, q) {
      if q == i {
        var p := if s[i].note == s[i + 1].note then i + 1 else i - 1;
        assert s[p].note == s[q].note;
      } else {
        ComposeSkipMissing(g, |s|, i, q);
        BesideLift(s, i, g, q - 1);
      }
    }
  }

  /** Keeping the entry at i extends a trace from i + 1 to one from i. */
  lemma DropTraceKeep(f: seq<int>, r: seq<Note>, s: seq<Note>, i: nat)
    requires i < |s| && DropTrace(f, r, s, i + 1)
    ensures DropTrace(f, r, s, i)
  {
  }

  /** What the enumeration from index i does to s, tracked position by
      position. */
  lemma {:induction false} DropTraceFrom(s: seq<Note>, i: nat, fixed: bool) returns (f: seq<int>)
    requires fixed ==> i <= |s|
    ensures DropTrace(f, if fixed then DropFixedFrom(s, i) else DropFrom(s, i), s, i)
    decreases |s| - i
  {
    if i >= |s| {
      f := Identity(|s|);
      DropTraceDone(s, i);
    } else if Duplicated(s, i) {
      var next := if fixed then i else i + 1;
      var g := DropTraceFrom(Delete(s, i), next, fixed);
      DropDeleteStep(s, i, g, if fixed then DropFixedFrom(s, i) else DropFrom(s, i), next);
      f := Compose(Skip(|s|, i), g);
    } else {
      f := DropTraceFrom(s, i + 1, fixed);
      DropTraceKeep(f, if fixed then DropFixedFrom(s, i) else DropFrom(s, i), s, i);
    }
  }

  /** _dropDuplicates, as written and repaired, only takes entries out: the
      result is a subsequence of the list, and each entry taken out had an
      equal pitch beside it once the entries taken out before it were gone. */
  lemma DropSubseq(s: seq<Note>)
    ensures IsSubseq(DropFrom(s, 0), s)
    ensures exists f :: Embeds(f, DropFrom(s, 0), s) && RemovedOnlyBeside(s, f)
    ensures IsSubseq(DropFixedFrom(s, 0), s)
    ensures exists f :: Embeds(f, DropFixedFrom(s, 0), s) && RemovedOnlyBeside(s, f)
  {
    var f := DropTraceFrom(s, 0, false);
    var g := DropTraceFrom(s, 0, true);
    assert Embeds(f, DropFrom(s, 0), s) && RemovedOnlyBeside(s, f);
    assert Embeds(g, DropFixedFrom(s, 0), s) && RemovedOnlyBeside(s, g);
  }

  /** No interior duplicate below index i. */
  ghost predicate NoDuplicatesBelow(s: seq<Note>, i: nat) {
    forall j :: 0 <= j < i && j < |s| ==> !Duplicated(s, j)
  }

  /** The repaired loop leaves nothing its test would remove. */
  lemma {:induction false} DropFixedNoDuplicates(s: seq<Note>, i: nat)
    requires i <= |s| && NoDuplicatesBelow(s, i)
    ensures NoDuplicates(DropFixedFrom(s, i))
    decreases |s| - i
  {
    if i < |s| {
      if Duplicated(s, i) {
        var t := Delete(s, i);
        forall j | 0 <= j < i && j < |t|
          ensures !Duplicated(t, j)
        {
          assert !Duplicated(s, j);
          if j == i - 1 && j > 0 {
            assert t[j] == s[j] && t[j - 1] == s[j - 1] && t[j + 1] == s[i + 1];
          } else if j > 0 {
            assert t[j] == s[j] && t[j - 1] == s[j - 1] && t[j + 1] == s[j + 1];
          }
        }
        DropFixedNoDuplicates(t, i);
      } else {
        DropFixedNoDuplicates(s, i + 1);
      }
    }
  }

  /** Each interior pitch below 300 is strictly below the next one: this
      model's reading of what the repository's test of OneTrackOnOnlyOrdered
      checks, with the first entry left out. */
  ghost predicate RunsStrict(s: seq<Note>) {
    forall p :: 0 < p < |s| - 1 && s[p].note < MarkerPitch ==> s[p].note < s[p + 1].note
  }

  /** Removing duplicates, repaired, from ascending runs leaves strictly
      ascending runs. */
  lemma DropFixedStrict(s: seq<Note>)
    requires RunsAscending(s)
    ensures RunsStrict(DropFixedFrom(s, 0))
  {
    DropKeeps(s, 0, true);
    DropFixedNoDuplicates(s, 0);
    var r := DropFixedFrom(s, 0);
    forall p | 0 < p < |r| - 1 && r[p].note < MarkerPitch
      ensures r[p].note < r[p + 1].note
    {
      assert !Duplicated(r, p);
    }
  }

  /** Four equal pitches between two markers: as written the removals skip
      every other entry and two copies stay; the repaired loop keeps one. */
  lemma DropSkipsRepeat()
    ensures DropFrom([Marker(1), On(60), On(60), On(60), On(60), Marker(1)], 0) == [Marker(1), On(60), On(60), Marker(1)]
    ensures DropFixedFrom([Marker(1), On(60), On(60), On(60), On(60), Marker(1)], 0) == [Marker(1), On(60), Marker(1)]
    ensures !NoDuplicates([Marker(1), On(60), On(60), Marker(1)])
  {
    var s := [Marker(1), On(60), On(60), On(60), On(60), Marker(1)];
    var t := [Marker(1), On(60), On(60), On(60), Marker(1)];
    var u := [Marker(1), On(60), On(60), Marker(1)];
    var v := [Marker(1), On(60), Marker(1)];
    assert Delete(s, 1) == t && Delete(t, 2) == u;
    assert DropFrom(u, 3) == u;
    assert DropFrom(s, 0) == u;
    assert Delete(t, 1) == u && Delete(u, 1) == v;
    assert DropFixedFrom(v, 1) == v;
    assert DropFixedFrom(s, 0) == v;
    assert Duplicated(u, 1);
  }

  // ---------------------------------------------------------------------------
  // OneTrack.__init__ as a whole

  /** A note moved into [minNote, maxNote] by whole octaves. */
  function Clamped(n: Note, minNote: int, maxNote: int): Note {
    n.(note := MinMaxOctaveConvert(n.note, minNote, maxNote))
  }

  function ClampAll(rel: seq<Note>, minNote: int, maxNote: int): seq<Note> {
    seq(|rel|, i requires 0 <= i < |rel| => Clamped(rel[i], minNote, maxNote))
  }

  /** halfStepsAboveC for the piece: None for the KeyError of a key missing
      from the table; 0 when no key is needed (the source then sets nothing
      and never reads it). */
  function KeyShift(key: Option<string>, convertToC: bool, scales: string): Option<int> {
    if !NeedKey(convertToC, scales) then Some(0)
    else if key.None? then None
    else KeyOffset(key.value, HalfStepsAboveC)
  }

  /** notesRel when OneTrack.__init__ returns, with smallestTimeUnit = 1/k:
      None for the KeyError; the empty list for a piece _isValid rejects;
      otherwise the relative notes with every pitch moved into the range. */
  function OneTrackRel(tracks: seq<seq<Msg>>, tpb: nat, k: nat, minNote: int, maxNote: int, convertToC: bool, scales: string): Option<seq<Note>>
    requires tpb > 0 && k > 0
  {
    var key := LastKey(tracks);
    if !IsValid(key, convertToC, scales) then Some([])
    else
      var shift := KeyShift(key, convertToC, scales);
      if shift.None? then None
      else Some(ClampAll(RelNotes(NotesAbs(tracks), convertToC, shift.value, tpb, k), minNote, maxNote))
  }

  /** What a built OneTrack holds: one entry per absolute note but the last
      (one for a single note), every pitch inside a range of at least an
      octave, the first entry at time 0, and with one unit per tick the times
      adding up to each note's absolute time. */
  lemma OneTrackRelShape(tracks: seq<seq<Msg>>, tpb: nat, minNote: int, maxNote: int, convertToC: bool, scales: string)
    requires tpb > 0 && OneTrackRel(tracks, tpb, 4 * tpb, minNote, maxNote, convertToC, scales).Some?
    requires IsValid(LastKey(tracks), convertToC, scales)
    ensures var r := OneTrackRel(tracks, tpb, 4 * tpb, minNote, maxNote, convertToC, scales).value;
      var abs := NotesAbs(tracks);
      && |r| == (if |abs| >= 2 then |abs| - 1 else |abs|)
      && (maxNote - minNote >= NotesPerOctave ==> forall i :: 0 <= i < |r| ==> minNote <= r[i].note <= maxNote)
      && (r != [] ==> r[0].time == 0)
      && forall j :: 1 <= j < |r| ==> SumNoteTimes(r[..j + 1]) == abs[j].time
  {
    var abs := NotesAbs(tracks);
    var shift := KeyShift(LastKey(tracks), convertToC, scales).value;
    var rel := RelNotes(abs, convertToC, shift, tpb, 4 * tpb);
    var r := ClampAll(rel, minNote, maxNote);
    if maxNote - minNote >= NotesPerOctave {
      forall i | 0 <= i < |r|
        ensures minNote <= r[i].note <= maxNote
      {
        MinMaxOctaveConvertInRange(rel[i].note, minNote, maxNote);
      }
    }
    RelNotesTimeline(abs, convertToC, shift, tpb);
    forall j | 1 <= j < |r|
      ensures SumNoteTimes(r[..j + 1]) == abs[j].time
    {
      ClampKeepsTimes(rel[..j + 1], minNote, maxNote);
      assert r[..j + 1] == ClampAll(rel[..j + 1], minNote, maxNote);
    }
  }

  lemma {:induction false} ClampKeepsTimes(rel: seq<Note>, minNote: int, maxNote: int)
    ensures SumNoteTimes(ClampAll(rel, minNote, maxNote)) == SumNoteTimes(rel)
  {
    if rel != [] {
      var init := rel[..|rel| - 1];
      ClampKeepsTimes(init, minNote, maxNote);
      assert ClampAll(rel, minNote, maxNote)[..|rel| - 1] == ClampAll(init, minNote, maxNote);
    }
  }

  /** A piece in C-flat major cannot be built when a key is needed. */
  lemma CFlatPieceFails(tpb: nat, k: nat, minNote: int, maxNote: int)
    requires tpb > 0 && k > 0
    ensures OneTrackRel([[Msg(0, KeySignature("Cb"))]], tpb, k, minNote, maxNote, true, "both").None?
  {
    var tracks := [[Msg(0, KeySignature("Cb"))]];
    assert KeyIn(tracks[0]) == Some("Cb");
    assert LastKey(tracks) == Some("Cb");
    CFlatMissing();
  }

  // ---------------------------------------------------------------------------
  // The objects

  /** notesAbs when OneTrack.__init__ returns: sorted by time, and for a valid
      piece with notes its first note has time 0 and, being the very object
      notesRel[0], the pitch _applyMinMaxOctave gave that entry. */
  function OneTrackAbs(tracks: seq<seq<Msg>>, minNote: int, maxNote: int, convertToC: bool, scales: string): seq<Note> {
    var abs := NotesAbs(tracks);
    if !IsValid(LastKey(tracks), convertToC, scales) || abs == [] then abs
    else abs[0 := Clamped(abs[0].(time := 0), minNote, maxNote)]
  }

  /** No absolute note time is negative: each is a running sum of deltas. */
  lemma {:induction false} UnsortedNotesNonNegative(tracks: seq<seq<Msg>>)
    ensures forall i :: 0 <= i < |UnsortedNotes(tracks)| ==> UnsortedNotes(tracks)[i].time >= 0
  {
    if tracks != [] {
      UnsortedNotesNonNegative(tracks[..|tracks| - 1]);
      TrackNotesTimes(tracks[|tracks| - 1]);
    }
  }

  /** notesAbs when __init__ returns is still sorted by time: the first note's
      time becomes 0, no later time is negative, and the other notes are those
      of the sort. For a built piece the first note is the very entry
      notesRel[0], time 0 and pitch clamped; for one _isValid rejects, or one
      without notes, notesAbs is the sorted list itself. */
  lemma OneTrackAbsShape(tracks: seq<seq<Msg>>, tpb: nat, k: nat, minNote: int, maxNote: int, convertToC: bool, scales: string)
    requires tpb > 0 && k > 0
    ensures var r, abs := OneTrackAbs(tracks, minNote, maxNote, convertToC, scales), NotesAbs(tracks);
      && SortedBy(r, TimeOf)
      && |r| == |abs|
      && (forall i :: 1 <= i < |r| ==> r[i] == abs[i])
      && (!IsValid(LastKey(tracks), convertToC, scales) || abs == [] ==> r == abs)
      && (IsValid(LastKey(tracks), convertToC, scales) && abs != [] ==>
            r[0].time == 0 && r[0].note == MinMaxOctaveConvert(abs[0].note, minNote, maxNote))
    ensures var rel := OneTrackRel(tracks, tpb, k, minNote, maxNote, convertToC, scales);
      IsValid(LastKey(tracks), convertToC, scales) && NotesAbs(tracks) != [] && rel.Some? ==>
        OneTrackAbs(tracks, minNote, maxNote, convertToC, scales)[0] == rel.value[0]
  {
    var abs := NotesAbs(tracks);
    var r := OneTrackAbs(tracks, minNote, maxNote, convertToC, scales);
    NotesAbsSorted(tracks, n => true);
    if IsValid(LastKey(tracks), convertToC, scales) && abs != [] {
      UnsortedNotesNonNegative(tracks);
      assert abs[0] in multiset(UnsortedNotes(tracks));
      forall i, j | 0 <= i < j < |r| ensures r[i].time <= r[j].time {
        assert abs[0].time <= abs[j].time;
      }
    }
  }

  /** The state of a OneTrack, of a OneTrackOnOnly (notesTimed) and of a
      OneTrackOnOnlyOrdered. smallestTimeUnit is 1/k. The source's notes are
      mutable objects; here the lists hold values, and shared records the one
      alias the source creates: the entry of notesRel that is the object
      notesAbs[0]. */
  class OneTrack {
    const tracks: seq<seq<Msg>>
    const tpb: nat
    const k: nat
    const minNote: int
    const maxNote: int
    const convertToC: bool
    const scales: string
    var key: Option<string>
    var notesAbs: seq<Note>
    var notesRel: seq<Note>
    var kOff: int
    var notesTimed: seq<Note>
    var shared: Option<nat>

    constructor (tracks: seq<seq<Msg>>, tpb: nat, k: nat, minNote: int, maxNote: int, convertToC: bool, scales: string)
      ensures this.tracks == tracks && this.tpb == tpb && this.k == k
      ensures this.minNote == minNote && this.maxNote == maxNote
      ensures this.convertToC == convertToC && this.scales == scales
      ensures key.None? && notesAbs == [] && notesRel == [] && notesTimed == [] && shared.None? && kOff == 0
    {
      this.tracks, this.tpb, this.k := tracks, tpb, k;
      this.minNote, this.maxNote := minNote, maxNote;
      this.convertToC, this.scales := convertToC, scales;
      key, notesAbs, notesRel, notesTimed, shared, kOff := None, [], [], [], None, 0;
    }

    /** The rest of __init__ once the notes are extracted: for a piece
        _isValid accepts, the key lookup (false for the KeyError), then
        _convertToNotesRel and _applyMinMaxOctave. */
    method ConvertIfValid() returns (ok: bool)
      requires tpb > 0 && k > 0 && notesRel == [] && kOff == 0
      modifies this`kOff, this`notesAbs, this`notesRel, this`shared
      ensures var valid := IsValid(key, convertToC, scales);
        var shift := KeyShift(key, convertToC, scales);
        && (ok <==> !valid || shift.Some?)
        && (ok && valid ==> notesRel == ClampAll(RelNotes(old(notesAbs), convertToC, shift.value, tpb, k), minNote, maxNote))
        && (ok && valid ==> notesAbs == if old(notesAbs) == [] then [] else old(notesAbs)[0 := Clamped(old(notesAbs)[0].(time := 0), minNote, maxNote)])
        && (!(ok && valid) ==> notesAbs == old(notesAbs) && notesRel == [])
    {
      ok := true;
      if IsValid(key, convertToC, scales) {
        if NeedKey(convertToC, scales) {
          var above := KeyOffset(key.value, HalfStepsAboveC);
          if above.None? {
            return false;
          }
          kOff := above.value;
        }
        ConvertToNotesRel();
        ApplyMinMaxOctave();
      }
    }

    /** The inner loop of _extractNotesAbs over track t: a running time and
        instrument, key_signature messages setting the key, a Note appended
        for every note message. */
    method ExtractTrack(t: nat)
      requires t < |tracks|
      modifies this`key, this`notesAbs
      ensures notesAbs == old(notesAbs) + TrackNotes(tracks[t])
      ensures key == if KeyIn(tracks[t]).Some? then KeyIn(tracks[t]) else old(key)
    {
      var track := tracks[t];
      var time := 0;
      var instrument := 0;
      var m := 0;
      while m < |track|
        invariant 0 <= m <= |track|
        invariant time == SumTimes(track[..m]) && instrument == InstrumentOf(track[..m])
        invariant notesAbs == old(notesAbs) + TrackNotes(track[..m])
        invariant key == if KeyIn(track[..m]).Some? then KeyIn(track[..m]) else old(key)
      {
        var msg := track[m];
        assert track[..m + 1][..m] == track[..m] && track[..m + 1][m] == msg;
        if msg.body.ProgramChange? {
          instrument := msg.body.program;
        }
        if msg.body.KeySignature? {
          key := Some(msg.body.key);
        }
        time := time + msg.time;
        if IsNoteMsg(msg) {
          notesAbs := notesAbs + [MakeNote(msg.body.note, time, MsgKind(msg), msg.body.velocity, instrument)];
        }
        m := m + 1;
      }
      assert track[..|track|] == track;
    }

    /** _extractNotesAbs: the notes of every track, then a stable sort by time;
        the key is that of the last key_signature message read. */
    method ExtractNotesAbs()
      modifies this`key, this`notesAbs
      ensures notesAbs == SortBy(old(notesAbs) + UnsortedNotes(tracks), TimeOf)
      ensures key == if LastKey(tracks).Some? then LastKey(tracks) else old(key)
    {
      var t := 0;
      while t < |tracks|
        invariant 0 <= t <= |tracks|
        invariant notesAbs == old(notesAbs) + UnsortedNotes(tracks[..t])
        invariant key == if LastKey(tracks[..t]).Some? then LastKey(tracks[..t]) else old(key)
      {
        assert tracks[..t + 1][..t] == tracks[..t] && tracks[..t + 1][t] == tracks[t];
        ExtractTrack(t);
        t := t + 1;
      }
      assert tracks[..|tracks|] == tracks;
      notesAbs := SortBy(notesAbs, TimeOf);
    }

    /** _convertToNotesRel: the first note itself with time 0 (the copy of the
        list is shallow, so notesAbs[0] changes too), then a copy of each
        later note but the last, moved into C when asked, with its quantised
        delta. */
    method ConvertToNotesRel()
      requires tpb > 0 && k > 0
      modifies this`notesAbs, this`notesRel, this`shared
      ensures old(notesAbs) == [] ==> notesAbs == [] && notesRel == old(notesRel) && shared == old(shared)
      ensures old(notesAbs) != [] ==>
        && notesAbs == old(notesAbs)[0 := old(notesAbs)[0].(time := 0)]
        && notesRel == old(notesRel) + RelNotes(old(notesAbs), convertToC, kOff, tpb, k)
        && shared == Some(|old(notesRel)|)
    {
      var abs := notesAbs;
      if |abs| == 0 {
        return;
      }
      var first := abs[0].(time := 0);
      abs := abs[0 := first];
      ghost var spec := RelNotes(old(notesAbs), convertToC, kOff, tpb, k);
      var rel := [first];
      var i := 0;
      while i + 2 < |abs|
        invariant 0 <= i && (i == 0 || i + 1 < |abs|)
        invariant |abs| == |old(notesAbs)| && abs[0].time == 0
        invariant forall j :: 0 < j < |abs| ==> abs[j] == old(notesAbs)[j]
        invariant rel == spec[..i + 1]
      {
        var currentNote := abs[i + 1];
        var previousNote := abs[i];
        var deltaTime := currentNote.time - previousNote.time;
        var copy := currentNote;
        if convertToC {
          copy := copy.(note := ConvertNoteToC(copy.note, kOff));
        }
        copy := copy.(time := CeilUnits(deltaTime, tpb, k));
        assert copy == spec[i + 1];
        assert spec[..i + 2] == spec[..i + 1] + [spec[i + 1]];
        rel := rel + [copy];
        i := i + 1;
      }
      assert rel == spec;
      notesAbs := abs;
      shared := Some(|notesRel|);
      notesRel := notesRel + rel;
    }

    /** _applyMinMaxOctave: every entry of notesRel moved into the range in
        place; the entry shared with notesAbs[0] moves there too. */
    method ApplyMinMaxOctave()
      modifies this`notesRel, this`notesAbs
      ensures notesRel == ClampAll(old(notesRel), minNote, maxNote)
      ensures notesAbs == if shared.Some? && shared.value < |notesRel| && old(notesAbs) != []
                          then old(notesAbs)[0 := notesRel[shared.value]] else old(notesAbs)
    {
      for i := 0 to |notesRel|
        invariant |notesRel| == |old(notesRel)|
        invariant forall j :: 0 <= j < i ==> notesRel[j] == Clamped(old(notesRel)[j], minNote, maxNote)
        invariant forall j :: i <= j < |notesRel| ==> notesRel[j] == old(notesRel)[j]
        invariant notesAbs == if shared.Some? && shared.value < i && old(notesAbs) != []
                              then old(notesAbs)[0 := notesRel[shared.value]] else old(notesAbs)
      {
        notesRel := notesRel[i := Clamped(notesRel[i], minNote, maxNote)];
        if shared == Some(i) && |notesAbs| > 0 {
          notesAbs := notesAbs[0 := notesRel[i]];
        }
      }
    }

    /** _calculateNoteOns: for each entry a wait marker for its time, if
        positive, then for a note_on the pitch with the times from it up to
        and including the first note_off of its pitch. */
    method CalculateNoteOns()
      modifies this`notesTimed
      ensures notesTimed == old(notesTimed) + Timed(notesRel, |notesRel|)
    {
      for i := 0 to |notesRel|
        invariant notesTimed == old(notesTimed) + Timed(notesRel, i)
      {
        var note := notesRel[i];
        var emitted: seq<Note> := [];
        if note.time > 0 {
          emitted := [Marker(note.time)];
        }
        if note.kind == NoteOn {
          var dt := HeldTime(i);
          emitted := emitted + [MakeNote(note.note, dt, NoteOn, note.velocity, note.instrument)];
        }
        notesTimed := notesTimed + emitted;
      }
    }

    /** The inner loop of _calculateNoteOns for entry i. */
    method HeldTime(i: nat) returns (dt: int)
      requires i < |notesRel|
      ensures dt == Held(notesRel[i..], notesRel[i].note)
    {
      var noteNum := notesRel[i].note;
      dt := 0;
      var j := i;
      while j < |notesRel|
        invariant i <= j <= |notesRel|
        invariant dt + Held(notesRel[j..], noteNum) == Held(notesRel[i..], noteNum)
      {
        var nextNote := notesRel[j];
        assert notesRel[j..][0] == nextNote && notesRel[j..][1..] == notesRel[j + 1..];
        if nextNote.kind == NoteOff && nextNote.note == noteNum {
          dt := dt + nextNote.time;
          return;
        }
        dt := dt + nextNote.time;
        j := j + 1;
      }
    }

    /** _orderNote(length, i): None where the source raises IndexError. */
    method OrderNoteInPlace(length: nat, i: nat) returns (isDone: Option<bool>)
      requires length == |notesTimed| && i < length
      modifies this`notesTimed
      ensures isDone.None? <==> OrderNote(old(notesTimed), i, false).None?
      ensures isDone.Some? ==> (notesTimed, isDone.value) == OrderNote(old(notesTimed), i, false).value
    {
      var note := notesTimed[i].note;
      if note < MarkerPitch && i < length - 1 && note > notesTimed[i + 1].note {
        var r := MoveUp(note, i);
        isDone := if r then Some(false) else None;
      } else if note < MarkerPitch && i > 0 && note < notesTimed[i - 1].note {
        var wasMarker := !(notesTimed[i - 1].note < MarkerPitch);
        var r := MoveDown(note, i);
        isDone := if r then Some(wasMarker) else None;
      } else {
        isDone := Some(true);
      }
    }

    /** The forward loop of _orderNote; false for the IndexError. */
    method MoveUp(note: int, i: nat) returns (ok: bool)
      requires i < |notesTimed|
      modifies this`notesTimed
      ensures ok <==> Forward(old(notesTimed), note, i, 1, false).Some?
      ensures ok ==> notesTimed == Forward(old(notesTimed), note, i, 1, false).value
    {
      var c := 1;
      while i + c < |notesTimed| && note > notesTimed[i + c].note
        invariant 1 <= c && i + c - 1 < |notesTimed|
        invariant Forward(notesTimed, note, i, c, false) == Forward(old(notesTimed), note, i, 1, false)
        decreases |notesTimed| - (i + c)
      {
        notesTimed := SwapNotes(notesTimed, i + c, i + c - 1);
        c := c + 1;
      }
      ok := i + c < |notesTimed|;
    }

    /** The backward loop of _orderNote, with Python's negative indices;
        false for the IndexError. */
    method MoveDown(note: int, i: nat) returns (ok: bool)
      requires i < |notesTimed|
      modifies this`notesTimed
      ensures ok <==> Backward(old(notesTimed), note, i, 1, false).Some?
      ensures ok ==> notesTimed == Backward(old(notesTimed), note, i, 1, false).value
    {
      var c := 1;
      while true
        invariant 1 <= c && |notesTimed| == |old(notesTimed)|
        invariant Backward(notesTimed, note, i, c, false) == Backward(old(notesTimed), note, i, 1, false)
        decreases |notesTimed| + i - c
      {
        var j := i - c;
        if j < -|notesTimed| {
          return false;
        }
        var a := PyIndex(|notesTimed|, j);
        if !(note < notesTimed[a].note && notesTimed[a].note < MarkerPitch) {
          return true;
        }
        notesTimed := SwapNotes(notesTimed, a, PyIndex(|notesTimed|, j + 1));
        c := c + 1;
      }
    }

    /** _orderAll: passes of _orderNote over every index until one pass reports
        isDone everywhere, at most fuel passes. */
    method OrderAllInPlace(fuel: nat) returns (r: OrderResult)
      modifies this`notesTimed
      ensures r == OrderAll(old(notesTimed), fuel, false)
      ensures r.Ordered? ==> notesTimed == r.notes
    {
      var length := |notesTimed|;
      var isDone := false;
      var passes := 0;
      while !isDone
        invariant passes <= fuel && |notesTimed| == length
        invariant isDone ==> OrderAll(old(notesTimed), fuel, false) == Ordered(notesTimed)
        invariant !isDone ==> OrderAll(notesTimed, fuel - passes, false) == OrderAll(old(notesTimed), fuel, false)
        decreases fuel - passes
      {
        if passes == fuel {
          return OutOfFuel;
        }
        var ok;
        ok, isDone := Pass(length);
        if !ok {
          return IndexError;
        }
        passes := passes + 1;
      }
      r := Ordered(notesTimed);
    }

    /** One pass of _orderAll: false for the IndexError. */
    method Pass(length: nat) returns (ok: bool, isDone: bool)
      requires length == |notesTimed|
      modifies this`notesTimed
      ensures ok <==> OrderPass(old(notesTimed), 0, true, false).Some?
      ensures ok ==> (notesTimed, isDone) == OrderPass(old(notesTimed), 0, true, false).value
    {
      isDone := true;
      for i := 0 to length
        invariant |notesTimed| == length
        invariant OrderPass(notesTimed, i, isDone, false) == OrderPass(old(notesTimed), 0, true, false)
      {
        var d := OrderNoteInPlace(length, i);
        if d.None? {
          return false, isDone;
        }
        if !d.value {
          isDone := false;
        }
      }
      ok := true;
    }

    /** _dropDuplicates: removing while enumerating, so the entry after a
        removed one is never looked at. */
    method DropDuplicates()
      modifies this`notesTimed
      ensures notesTimed == DropFrom(old(notesTimed), 0)
    {
      var i := 0;
      while i < |notesTimed|
        invariant DropFrom(notesTimed, i) == DropFrom(old(notesTimed), 0)
        decreases |notesTimed| - i
      {
        var note := notesTimed[i];
        if note.note < MarkerPitch && i > 0 && i < |notesTimed| - 1 {
          var currentNote := notesTimed[i].note;
          var nextNote := notesTimed[i + 1].note;
          var previousNote := notesTimed[i - 1].note;
          if currentNote == nextNote || currentNote == previousNote {
            notesTimed := Delete(notesTimed, i);
          }
        }
        i := i + 1;
      }
    }
  }

  /** OneTrack.__init__: extract, and for a piece _isValid accepts look the key
      up (false for the KeyError) and build notesRel. */
  method NewOneTrack(tracks: seq<seq<Msg>>, tpb: nat, k: nat, minNote: int, maxNote: int, convertToC: bool, scales: string)
    returns (t: OneTrack, ok: bool)
    requires tpb > 0 && k > 0
    ensures fresh(t) && t.tracks == tracks && t.tpb == tpb && t.k == k
    ensures t.minNote == minNote && t.maxNote == maxNote && t.convertToC == convertToC && t.scales == scales
    ensures t.key == LastKey(tracks) && t.notesTimed == []
    ensures ok <==> OneTrackRel(tracks, tpb, k, minNote, maxNote, convertToC, scales).Some?
    ensures ok ==> t.notesRel == OneTrackRel(tracks, tpb, k, minNote, maxNote, convertToC, scales).value
    ensures ok ==> t.notesAbs == OneTrackAbs(tracks, minNote, maxNote, convertToC, scales)
    ensures !ok ==> t.notesAbs == NotesAbs(tracks)
  {
    t := new OneTrack(tracks, tpb, k, minNote, maxNote, convertToC, scales);
    t.ExtractNotesAbs();
    assert [] + UnsortedNotes(tracks) == UnsortedNotes(tracks);
    ghost var abs := t.notesAbs;
    assert abs == NotesAbs(tracks);
    ok := t.ConvertIfValid();
  }

  /** OneTrackOnOnly.__init__: a OneTrack, then _calculateNoteOns. */
  method NewOnOnly(tracks: seq<seq<Msg>>, tpb: nat, k: nat, minNote: int, maxNote: int, convertToC: bool, scales: string)
    returns (t: OneTrack, ok: bool)
    requires tpb > 0 && k > 0
    ensures fresh(t) && t.tracks == tracks
    ensures ok <==> OneTrackRel(tracks, tpb, k, minNote, maxNote, convertToC, scales).Some?
    ensures ok ==> t.notesRel == OneTrackRel(tracks, tpb, k, minNote, maxNote, convertToC, scales).value
    ensures ok ==> t.notesTimed == Timed(t.notesRel, |t.notesRel|)
  {
    t, ok := NewOneTrack(tracks, tpb, k, minNote, maxNote, convertToC, scales);
    if ok {
      t.CalculateNoteOns();
    }
  }

  /** OneTrackOnOnlyOrdered.__init__: a OneTrackOnOnly, then _orderAll (at most
      fuel passes) and _dropDuplicates; the result says how _orderAll ended. */
  method NewOrdered(tracks: seq<seq<Msg>>, tpb: nat, k: nat, minNote: int, maxNote: int, convertToC: bool, scales: string, fuel: nat)
    returns (t: OneTrack, ok: bool, order: OrderResult)
    requires tpb > 0 && k > 0
    ensures fresh(t) && t.tracks == tracks
    ensures ok <==> OneTrackRel(tracks, tpb, k, minNote, maxNote, convertToC, scales).Some?
    ensures ok ==> t.notesRel == OneTrackRel(tracks, tpb, k, minNote, maxNote, convertToC, scales).value
    ensures ok ==> order == OrderAll(Timed(t.notesRel, |t.notesRel|), fuel, false)
    ensures ok && order.Ordered? ==> t.notesTimed == DropFrom(order.notes, 0)
  {
    t, ok := NewOnOnly(tracks, tpb, k, minNote, maxNote, convertToC, scales);
    order := OutOfFuel;
    if ok {
      order := t.OrderAllInPlace(fuel);
      if order.Ordered? {
        t.DropDuplicates();
      }
    }
  }
}
