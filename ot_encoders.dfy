/** ot_encoders.py: the MultiNet encoder. Every timed entry of a OneTrackOnOnly
    becomes a (pitch-or-300, clamped time) pair; entries with time 0 are dropped
    and a 300 pair directly after a 300 pair is merged into it while the summed
    time stays below nClassesTimes. */
module OtEncoders {
  import opened Base
  import opened OneTracks

  const TimeUnit := 300

  function Min(a: int, b: int): int {
    if a <= b then a else b
  }

  /** _encodeOneNote: (note, None) for a zero time; otherwise the pitch of a
      note_on, or 300 for anything else, with the time clamped to nClassesTimes-1. */
  function EncodeOneNote(note: Note, nClassesTimes: int): (r: (int, Option<int>))
    ensures r.1.None? <==> note.time == 0
    ensures r.0 == note.note || r.0 == TimeUnit
    ensures r.0 == TimeUnit <==> (note.time != 0 && note.kind != NoteOn) || note.note == TimeUnit
    ensures r.1.Some? ==> r.1.value <= nClassesTimes - 1 && r.1.value <= note.time
    ensures r.1.Some? ==> r.1.value == Min(note.time, nClassesTimes - 1)
    ensures r.1.Some? && note.time > 0 && nClassesTimes >= 2 ==> r.1.value >= 1
  {
    if note.time == 0 then (note.note, None)
    else if note.kind == NoteOn then (note.note, Some(Min(note.time, nClassesTimes - 1)))
    else (TimeUnit, Some(Min(note.time, nClassesTimes - 1)))
  }

  /** The two parallel lists _encodeOneMido has built after reading `notes`. */
  function EncodePairs(notes: seq<Note>, nClassesTimes: int): (r: (seq<int>, seq<int>))
    ensures |r.0| == |r.1|
  {
    if notes == [] then ([], [])
    else
      var (ns, ts) := EncodePairs(notes[..|notes| - 1], nClassesTimes);
      var (en, et) := EncodeOneNote(notes[|notes| - 1], nClassesTimes);
      if et.None? then (ns, ts)
      else if |ns| > 0 && ns[|ns| - 1] == en && en == TimeUnit && et.value + ts[|ts| - 1] < nClassesTimes
      then (ns, ts[|ts| - 1 := ts[|ts| - 1] + et.value])
      else (ns + [en], ts + [et.value])
  }

  /** _encodeOneMido: None when nothing was encoded, else [encodedNotes, encodedTimes]. */
  method EncodeOneMido(notesTimed: seq<Note>, nClassesTimes: int) returns (r: Option<(seq<int>, seq<int>)>)
    ensures r.None? <==> |EncodePairs(notesTimed, nClassesTimes).0| == 0
    ensures r.Some? ==> r.value == EncodePairs(notesTimed, nClassesTimes)
  {
    var encodedNotes: seq<int> := [];
    var encodedTimes: seq<int> := [];
    for i := 0 to |notesTimed|
      invariant (encodedNotes, encodedTimes) == EncodePairs(notesTimed[..i], nClassesTimes)
    {
      assert notesTimed[..i + 1][..i] == notesTimed[..i];
      var (encodedNote, encodedTime) := EncodeOneNote(notesTimed[i], nClassesTimes);
      if encodedTime.Some? {
        if |encodedNotes| > 0 && encodedNotes[|encodedNotes| - 1] == encodedNote && encodedNote == TimeUnit
           && encodedTime.value + encodedTimes[|encodedTimes| - 1] < nClassesTimes {
          encodedTimes := encodedTimes[|encodedTimes| - 1 := encodedTimes[|encodedTimes| - 1] + encodedTime.value];
        } else {
          encodedNotes := encodedNotes + [encodedNote];
          encodedTimes := encodedTimes + [encodedTime.value];
        }
      }
    }
    assert notesTimed[..|notesTimed|] == notesTimed;
    if |encodedNotes| != 0 {
      r := Some((encodedNotes, encodedTimes));
    } else {
      r := None;
    }
  }

  // ---------------------------------------------------------------------------
  // Properties

  predicate IsNoteEntry(code: int) {
    code != TimeUnit
  }

  /** A note_on with a non-zero time: the entries that keep their pitch. */
  predicate KeptNoteOn(n: Note) {
    n.time != 0 && n.kind == NoteOn
  }

  function Pitch(n: Note): int {
    n.note
  }

  ghost predicate NoteOnsBelowMarker(notes: seq<Note>) {
    forall i :: 0 <= i < |notes| && notes[i].kind == NoteOn ==> notes[i].note != TimeUnit
  }

  /** The pitch list holds, apart from the 300 markers, exactly the pitches of the
      note_on entries with a non-zero time, in their input order. */
  lemma {:induction false} EncodeKeepsPitches(notes: seq<Note>, nClassesTimes: int)
    requires NoteOnsBelowMarker(notes)
    ensures Filter(EncodePairs(notes, nClassesTimes).0, IsNoteEntry) == Map(Filter(notes, KeptNoteOn), Pitch)
  {
    if notes != [] {
      var init, x := notes[..|notes| - 1], notes[|notes| - 1];
      assert notes == init + [x];
      EncodeKeepsPitches(init, nClassesTimes);
      FilterSnoc(init, x, KeptNoteOn);
      var ns := EncodePairs(init, nClassesTimes).0;
      var en := EncodeOneNote(x, nClassesTimes).0;
      FilterSnoc(ns, en, IsNoteEntry);
      var fi := Filter(init, KeptNoteOn);
      assert Map(fi + [x], Pitch) == Map(fi, Pitch) + [x.note];
    }
  }

  ghost predicate TimesInRange(ts: seq<int>, nClassesTimes: int) {
    forall i :: 0 <= i < |ts| ==> 1 <= ts[i] <= nClassesTimes - 1
  }

  ghost predicate NonNegativeTimes(notes: seq<Note>) {
    forall i :: 0 <= i < |notes| ==> notes[i].time >= 0
  }

  /** With non-negative input times every emitted or merged time is in
      [1, nClassesTimes-1]. */
  lemma {:induction false} EncodeTimesInRange(notes: seq<Note>, nClassesTimes: int)
    requires nClassesTimes >= 2 && NonNegativeTimes(notes)
    ensures TimesInRange(EncodePairs(notes, nClassesTimes).1, nClassesTimes)
  {
    if notes != [] {
      EncodeTimesInRange(notes[..|notes| - 1], nClassesTimes);
    }
  }

  /** No two adjacent 300 entries could still have been merged. */
  ghost predicate NoMergeableMarkers(ns: seq<int>, ts: seq<int>, nClassesTimes: int)
    requires |ns| == |ts|
  {
    forall i :: 0 <= i < |ns| - 1 && ns[i] == TimeUnit && ns[i + 1] == TimeUnit ==> ts[i] + ts[i + 1] >= nClassesTimes
  }

  lemma {:induction false} EncodeNoMergeableMarkers(notes: seq<Note>, nClassesTimes: int)
    requires nClassesTimes >= 2 && NonNegativeTimes(notes)
    ensures var (ns, ts) := EncodePairs(notes, nClassesTimes);
      NoMergeableMarkers(ns, ts, nClassesTimes)
  {
    if notes != [] {
      EncodeNoMergeableMarkers(notes[..|notes| - 1], nClassesTimes);
      EncodeTimesInRange(notes[..|notes| - 1], nClassesTimes);
    }
  }

  /** Sum of the clamped times of the entries with a non-zero time. */
  function KeptTime(notes: seq<Note>, nClassesTimes: int): int {
    if notes == [] then 0
    else
      var x := notes[|notes| - 1];
      KeptTime(notes[..|notes| - 1], nClassesTimes) + (if x.time == 0 then 0 else Min(x.time, nClassesTimes - 1))
  }

  lemma SumUpdateLast(ts: seq<int>, d: int)
    requires ts != []
    ensures Sum(ts[|ts| - 1 := ts[|ts| - 1] + d]) == Sum(ts) + d
  {
    var u := ts[|ts| - 1 := ts[|ts| - 1] + d];
    assert u[..|u| - 1] == ts[..|ts| - 1];
  }

  /** Merging markers loses no time: the time list sums to the clamped times of
      all kept entries. */
  lemma {:induction false} EncodeTotalTime(notes: seq<Note>, nClassesTimes: int)
    ensures Sum(EncodePairs(notes, nClassesTimes).1) == KeptTime(notes, nClassesTimes)
  {
    if notes != [] {
      var init := notes[..|notes| - 1];
      EncodeTotalTime(init, nClassesTimes);
      var (ns, ts) := EncodePairs(init, nClassesTimes);
      var (en, et) := EncodeOneNote(notes[|notes| - 1], nClassesTimes);
      if et.Some? {
        if |ns| > 0 && ns[|ns| - 1] == en && en == TimeUnit && et.value + ts[|ts| - 1] < nClassesTimes {
          SumUpdateLast(ts, et.value);
        } else {
          assert (ts + [et.value])[..|ts|] == ts;
        }
      }
    }
  }
}
