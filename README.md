# Midi-Parser-2 core, modelled in Dafny

This project models the integer core of the Midi-Parser-2 pipeline. The pipeline turns MIDI files into integer sequences for a sequence model, and generated sequences back into MIDI messages. The model covers these stages:

- **Note value and k-way merge** (`midi_parser.py`, module `MidiParser`). The `Note` class applies the velocity-0 rule and checks transpositions. A `Channel` is a per-track cursor. `OneTrack._flatten` is modelled as a class whose `Flatten` method runs the merge loop over the channels. It is proved equal to a stable sort, by absolute time, of every track's messages except each track's last.
- **Sort-based flattener** (`one_tracks.py`, module `OneTracks`). It covers:
  - absolute note times and the stable sort;
  - relative times;
  - the key table and the move into C;
  - octave clamping and the ceiling quantiser;
  - the `OnOnly` (pitch, held time) entries with wait markers;
  - the `Ordered` variant's in-place bubbling and duplicate removal.
- **On/Off encoder** (`decimal_encoders.py`, module `DecimalEncoders`). Note codes, wait codes, and `_order`'s per-segment sort without repeats.
- **MultiNet encoder** (`ot_encoders.py`, module `OtEncoders`). Pitch/time pairs with clamped times and merged wait markers.
- **Pieces** (`pieces.py`, module `Pieces`). These cover:
  - `_removeDup`;
  - the MultiNet slot grid and its collapse into On/Off codes. `convertToOnOff` is modelled on a list of (code, time) pairs, which `chain.from_iterable` flattens to code, time, code, time. Given the encoder's `[codes, times]` instead, the same flattening yields all codes and then all times, which the grid then reads as pairs; that shape is not modelled;
  - the band dispatch of `_addMessage`;
  - the delta rule of `save`.
- **Cross-checks.**
  - `Flatteners`: the two flatteners emit the same notes in the same order.
  - `RoundTrip`: encoding and then saving a piece, and what that does to note lengths.

`smallestTimeUnit` is modelled as `1/k` for a positive integer `k`, so both quantisers are exact integer functions:

- `_flatten` rounds half to even, as Python's `round` does;
- `one_tracks._timeConversion` takes the ceiling.

The shared modules are:

- `Base`: messages, kinds, `Filter`, `Map`, `Sum` and the 150/299/300 code constants.
- `Sorting`: Python's stable `list.sort(key=...)`, modelled as a stable insertion sort, `SortBy`.

Every `Model` row names the member whose contract states the property. Where a loop of the source is modelled as a method, the method is proved equal to a specification function, and the lemmas about that function carry the promises.

Three details of the code the model follows as written:

- The key table of `one_tracks.py` has 20 entries and no `Cb` (one_tracks.py:48-69).
- Clamping moves a pitch by `(p - max) // 12 + 1` octaves (one_tracks.py:163-169), so a pitch exactly a multiple of 12 above the maximum moves one octave further than it needs to.
- The move into C subtracts `14 - offset` (one_tracks.py:121, 197-201).

## Model

| member | source | states |
|---|---|---|
| MidiParser.ConstructedKind | midi_parser/midi_parser.py:203-205 | the type changes exactly for a note_on of velocity 0, and then becomes note_off |
| MidiParser.CheckNote | midi_parser/midi_parser.py:241-245 | no error iff 0 <= pitch <= 127; the above-max error iff pitch > 127 |
| MidiParser.Note.constructor | midi_parser/midi_parser.py:182-209 | the stored type follows the velocity-0 rule; every other field is stored as given |
| MidiParser.Note.Transpose | midi_parser/midi_parser.py:211-221 | the pitch becomes pitch + n, and the call succeeds iff the new pitch is in 0..127 (the out-of-range pitch stays stored) |
| MidiParser.Note.TransposeByOctave | midi_parser/midi_parser.py:223-233 | the same effect as transposing by 12 * n |
| MidiParser.RoundHalfEvenNearest | midi_parser/midi_parser.py:349-350 | the rounded quotient is within half a unit of n/d, and even on a tie |
| MidiParser.TimeConversionExact | midi_parser/midi_parser.py:349-350 | with one time unit per tick the quantiser is the identity |
| MidiParser.FirstKeyIn | midi_parser/midi_parser.py:321-323 | None iff the track has no key_signature; otherwise the key of its first one |
| MidiParser.FirstKey | midi_parser/midi_parser.py:319-324 | None iff no track has a key_signature; otherwise the key of the first one in track order, then message order |
| MidiParser.ValidIffKey | midi_parser/midi_parser.py:340-343 | a piece is valid iff convertToC is off or some track has a key_signature |
| MidiParser.Channel.constructor | midi_parser/midi_parser.py:364-369 | a fresh cursor at index 0 over a non-empty track satisfies the cursor invariant |
| MidiParser.Channel.NextIncreasedTime | midi_parser/midi_parser.py:374-375 | None (NaN) iff the cursor is at the last message; otherwise the prefix sum of deltas through curInd |
| MidiParser.Channel.Advance | midi_parser/midi_parser.py:377-381 | returns the message at the old index and its absolute time; the invariant curTime = sum of deltas before curInd is kept |
| MidiParser.TrackStamps | midi_parser/midi_parser.py:328-331 | one stamp per message but the last, each carrying its absolute time |
| MidiParser.StampsUpToShape | midi_parser/midi_parser.py:328-331 | the tracks' stamps, listed track by track, are ordered by (track, position) and are exactly the emittable messages |
| MidiParser.MergeOrder | midi_parser/midi_parser.py:328-331 | the merge order is sorted by absolute time |
| MidiParser.MergeOrderShape | midi_parser/midi_parser.py:355-356 | the merge order is strictly ordered by (time, track, position) and holds exactly the emittable messages |
| MidiParser.StrictlySortedUnique | midi_parser/midi_parser.py:355-356 | two strictly ordered lists with the same members are equal, so the merge order is unique |
| MidiParser.SortByStrict | midi_parser/midi_parser.py:355-356 | a stable sort by time of a (track, position)-ordered list is strictly ordered by the full tie-break |
| MidiParser.ArgMin | midi_parser/midi_parser.py:355-356 | nanargmin: a non-NaN index whose value is least, and the lowest such index |
| MidiParser.Steps | midi_parser/midi_parser.py:328 | each track contributes len - 1 advances |
| MidiParser.Emit | midi_parser/midi_parser.py:334-336 | a RelativeNote keeps the note, velocity and velocity-0 type of its message |
| MidiParser.EmitNotesSnoc | midi_parser/midi_parser.py:331-336 | one more merged message appends a note iff it is a note message, with its delta against the previous merged message |
| MidiParser.MergeStep | midi_parser/midi_parser.py:329-331 | advancing the lowest-index channel with the least next time emits the merge-order successor and keeps the merge invariant |
| MidiParser.MergeLeft | midi_parser/midi_parser.py:328 | while passes remain some channel is not at its last message, so argmin never sees all NaN |
| MidiParser.MergeAdvance | midi_parser/midi_parser.py:329-336 | one pass keeps the merge invariant, the time order and the emitted-notes relation |
| MidiParser.MergeDone | midi_parser/midi_parser.py:328 | after the sum of len - 1 passes the emitted messages are exactly the merge order |
| MidiParser.NewChannels | midi_parser/midi_parser.py:310-311 | one fresh, distinct channel per track, in order, each at index 0 |
| MidiParser.OneTrack.constructor | midi_parser/midi_parser.py:295-312 | key = first key_signature; valid iff not (convertToC and no key); a valid piece's track is the notes of the merge order |
| MidiParser.OneTrack.IncreasedTimes | midi_parser/midi_parser.py:329 | the list of every channel's next absolute time, in channel order |
| MidiParser.OneTrack.AdvanceAt | midi_parser/midi_parser.py:331 | the chosen channel advances by one and returns its head stamp |
| MidiParser.OneTrack.Step | midi_parser/midi_parser.py:331-336 | currentTime moves to the message's absolute time; a note message yields its RelativeNote with the delta |
| MidiParser.OneTrack.Choose | midi_parser/midi_parser.py:329-331 | the chosen stamp is the merge-order successor; the emitted notes grow by its note, if any |
| MidiParser.OneTrack.Pass | midi_parser/midi_parser.py:329-336 | one loop pass keeps the flatten invariant and performs one more advance |
| MidiParser.OneTrack.Flatten | midi_parser/midi_parser.py:326-337 | the notes are the RelativeNotes of the merge order, and currentTime ends at the last merged absolute time |
| MidiParser.OneTrack.TotalSteps | midi_parser/midi_parser.py:328 | the loop bound is the sum of len(channel) - 1 |
| MidiParser.LastNoteAbsBounded | midi_parser/midi_parser.py:332-333 | the last note's absolute time is bounded by every message's bound |
| MidiParser.EmitNotesFixedTotal | midi_parser/midi_parser.py:332-333 | corrected: with one unit per tick the deltas add up to the last note's absolute time |
| MidiParser.EmitNotesFixedSameNotes | midi_parser/midi_parser.py:334-336 | the correction changes only times: same length, types, pitches and velocities |
| MidiParser.GapTrackOrder | midi_parser/midi_parser.py:326-337 | the merge order of a track with a control message between two notes |
| MidiParser.FlattenDropsGap | midi_parser/midi_parser.py:332-333 | as written the note deltas of that track sum to 10, while the last note is at 20; corrected they sum to 20 |
| OneTracks.MakeNote | midi_parser/one_tracks.py:30-37 | velocity 0 makes a note_off whatever type was passed; the other fields are kept |
| OneTracks.StripMinor | midi_parser/one_tracks.py:120 | the stripped key holds no 'm' |
| OneTracks.CFlatMissing | midi_parser/one_tracks.py:48-69 | "Cb" is a MIDI key name that spells semitone 11 but has no entry; the corrected table gives 11 |
| OneTracks.TableInOctave | midi_parser/one_tracks.py:48-69 | every offset is in 0..11 and the corrected table extends the original |
| OneTracks.FixedTableCoversKeys | midi_parser/one_tracks.py:48-69 | with the corrected table every major key and every minor key name has an offset |
| OneTracks.IsValid | midi_parser/one_tracks.py:127-134 | valid iff a needed key is present, a major selection has no 'm' and a minor selection has one |
| OneTracks.CeilUnitsBounds | midi_parser/one_tracks.py:205-206 | the quantiser is the ceiling of ticks * k / (4 * tpb) |
| OneTracks.CeilUnitsMonotone | midi_parser/one_tracks.py:205-206 | 0 maps to 0, positive times to at least 1, and the order of times is kept |
| OneTracks.CeilUnitsExact | midi_parser/one_tracks.py:205-206 | with one unit per tick the quantiser is the identity |
| OneTracks.ConvertNoteToC | midi_parser/one_tracks.py:197-201 | the result is note - (14 - kOff) exactly when that is non-negative and does not take a note above 87 below 88; otherwise it is note + kOff |
| OneTracks.ConvertNoteToCRange | midi_parser/one_tracks.py:197-201 | for note >= 0 and kOff in 0..11 the result is non-negative, and a note above 87 stays above 87 |
| OneTracks.ConvertNoteToCMissesC | midi_parser/one_tracks.py:121 | as written C in C major lands on A# (46) and D in D major on D (50) |
| OneTracks.ConvertNoteToCFixedDegree | midi_parser/one_tracks.py:197-201 | corrected, the pitch class becomes (note - kOff) mod 12, with the same range guarantees |
| OneTracks.MinMaxOctaveConvertRange | midi_parser/one_tracks.py:163-169 | in-range pitches are kept; above max ends in [max-12, max-1]; below min ends in [min+1, min+12]; the pitch class is kept |
| OneTracks.MinMaxOctaveConvertInRange | midi_parser/one_tracks.py:163-169 | with a range of at least an octave every pitch ends inside it |
| OneTracks.NotesAbsSorted | midi_parser/one_tracks.py:160 | notesAbs is sorted by time, a permutation of the extracted notes, and any filter of it keeps the track order among equal times |
| OneTracks.TrackNotesTimes | midi_parser/one_tracks.py:141-157 | within a track the note times are running sums of all deltas, non-decreasing and bounded by the track total |
| OneTracks.RelNotes | midi_parser/one_tracks.py:178-194 | empty for no notes; otherwise max(1, n-1) entries: the first note at time 0, then notes 1..n-2 with quantised deltas |
| OneTracks.RelNotesTimeline | midi_parser/one_tracks.py:183-193 | with one unit per tick the times of entries 0..j add up to note j's absolute time (note 0's time having been overwritten) |
| OneTracks.RelNotesNonNegative | midi_parser/one_tracks.py:189-193 | for sorted non-negative absolute times no relative time is negative |
| OneTracks.RelNotesDropsLast | midi_parser/one_tracks.py:186 | as written there are n-1 entries and the timeline stops short of a later last note |
| OneTracks.RelNotesFixedTimeline | midi_parser/one_tracks.py:186 | corrected, one entry per note, and the timeline reaches every note |
| OneTracks.Marker | midi_parser/one_tracks.py:221 | the 300 marker has the given time and, by the velocity-0 rule, type note_off |
| OneTracks.TimedMarkers | midi_parser/one_tracks.py:219-221 | the markers' times add up to the times of notesRel |
| OneTracks.TimedNoteOns | midi_parser/one_tracks.py:222-230 | the non-marker entries are the note_ons' pitches, in order |
| OneTracks.TimedShape | midi_parser/one_tracks.py:218-230 | both of the above for notesTimed |
| OneTracks.HeldCountsOwnGap | midi_parser/one_tracks.py:225-229 | as written a note_on's held time includes its own preceding delta |
| OneTracks.HeldGapExample | midi_parser/one_tracks.py:218-230 | a note waiting 4 and held 2 gets 6 as written, 2 corrected |
| OneTracks.HeldSpan | midi_parser/one_tracks.py:225-229 | the inner loop sums the times through the first note_off of the pitch |
| OneTracks.HeldFixedElapsed | midi_parser/one_tracks.py:225-229 | corrected, the held time is exactly the time between the note_on and its note_off |
| OneTracks.PyIndex | midi_parser/one_tracks.py:269-270 | a negative index counts from the end and is always in range |
| OneTracks.SwapNotes | midi_parser/one_tracks.py:263 | only the two pitch fields trade places |
| OneTracks.Forward | midi_parser/one_tracks.py:260-265 | keeps the length; the bounded variant never fails |
| OneTracks.Backward | midi_parser/one_tracks.py:267-272 | keeps the length; the bounded variant never fails |
| OneTracks.OrderNote | midi_parser/one_tracks.py:257-273 | keeps the length; the bounded variant never fails |
| OneTracks.OrderPass | midi_parser/one_tracks.py:250-252 | a pass keeps the length; the bounded variant never fails |
| OneTracks.OrderAll | midi_parser/one_tracks.py:245-252 | an ordered result keeps the length; the bounded variant never raises |
| OneTracks.ForwardFrame | midi_parser/one_tracks.py:260-265 | the forward loop permutes pitches only, leaving markers and other fields in place |
| OneTracks.ForwardGroups | midi_parser/one_tracks.py:260-265 | the forward loop never moves a pitch across a marker |
| OneTracks.BackwardFrame | midi_parser/one_tracks.py:267-272 | the backward loop, even wrapping round, permutes pitches only |
| OneTracks.BackwardBoundedGroups | midi_parser/one_tracks.py:267-272 | the bounded backward loop never moves a pitch across a marker |
| OneTracks.OrderNoteFrame | midi_parser/one_tracks.py:257-273 | _orderNote permutes pitches only |
| OneTracks.OrderNoteGroups | midi_parser/one_tracks.py:257-273 | bounded, _orderNote keeps markers and groups |
| OneTracks.OrderNoteDone | midi_parser/one_tracks.py:257-273 | an isDone answer means nothing changed and the pitch is at most its successor |
| OneTracks.OrderPassFrame | midi_parser/one_tracks.py:250-252 | a pass permutes pitches only |
| OneTracks.OrderPassGroups | midi_parser/one_tracks.py:250-252 | a bounded pass keeps markers and groups |
| OneTracks.OrderPassDone | midi_parser/one_tracks.py:250-252 | a pass reporting isDone changed nothing and every run is ascending |
| OneTracks.OrderAllOrdered | midi_parser/one_tracks.py:245-252 | on return the pitches are permuted in place, markers and other fields unchanged, and every run below 300 ascends |
| OneTracks.OrderAllBoundedGroups | midi_parser/one_tracks.py:245-252 | with the bounded loops no pitch crosses a marker |
| OneTracks.OrderAllEndCrash | midi_parser/one_tracks.py:260-264 | as written a descending final group raises IndexError; bounded it is sorted |
| OneTracks.OrderAllWrapsRound | midi_parser/one_tracks.py:267-272 | as written the backward loop wraps to the last note and swaps a pitch across a marker; bounded the chord is sorted in place |
| OneTracks.DeleteDuplicatedPitches | midi_parser/one_tracks.py:281-282 | removing a duplicated entry keeps every pitch value |
| OneTracks.DeleteAscending | midi_parser/one_tracks.py:282 | removing an interior entry keeps ascending runs ascending |
| OneTracks.DropSubseq | midi_parser/one_tracks.py:276-282 | as written and corrected, the result is a subsequence of the list, and each entry taken out is a pitch below 300 equal to one beside it once the entries taken out before it are gone |
| OneTracks.DropKeeps | midi_parser/one_tracks.py:276-282 | as written and corrected: markers kept in order, never longer, every pitch value kept, ascending runs kept |
| OneTracks.DropFixedNoDuplicates | midi_parser/one_tracks.py:276-282 | corrected, nothing its test would remove is left |
| OneTracks.DropFixedStrict | midi_parser/one_tracks.py:276-282 | corrected, from ascending runs, every interior pitch is strictly below its successor |
| OneTracks.DropSkipsRepeat | midi_parser/one_tracks.py:276-282 | as written four equal pitches keep two, corrected one |
| OneTracks.ClampKeepsTimes | midi_parser/one_tracks.py:172-174 | clamping keeps the times |
| OneTracks.OneTrackRelShape | midi_parser/one_tracks.py:117-123 | a built track has max(1, n-1) entries, pitches inside a range of at least an octave, the first at time 0, and a timeline reaching each note |
| OneTracks.CFlatPieceFails | midi_parser/one_tracks.py:120 | a C-flat piece raises KeyError when a key is needed |
| OneTracks.UnsortedNotesNonNegative | midi_parser/one_tracks.py:141-157 | no absolute note time is negative |
| OneTracks.OneTrackAbsShape | midi_parser/one_tracks.py:160-184 | notesAbs after __init__ is still sorted by time, with the notes of the sort after the first; for a valid piece with notes the first note has time 0 and the clamped pitch, and is the entry notesRel[0]; otherwise notesAbs is the sorted list |
| OneTracks.OneTrack.constructor | midi_parser/one_tracks.py:101-110 | the fields are stored; the note lists start empty |
| OneTracks.OneTrack.ExtractTrack | midi_parser/one_tracks.py:141-157 | appends the track's notes with running times and instruments; the key becomes the track's last key_signature |
| OneTracks.OneTrack.ExtractNotesAbs | midi_parser/one_tracks.py:138-160 | notesAbs becomes the stable sort by time of all tracks' notes; key becomes the last key_signature |
| OneTracks.OneTrack.ConvertToNotesRel | midi_parser/one_tracks.py:178-194 | notesRel grows by RelNotes, and notesAbs[0]'s time becomes 0 through the shared object |
| OneTracks.OneTrack.ApplyMinMaxOctave | midi_parser/one_tracks.py:172-174 | every entry is clamped, and notesAbs[0] follows the entry it shares |
| OneTracks.OneTrack.ConvertIfValid | midi_parser/one_tracks.py:117-123 | fails exactly on a KeyError; a valid piece gets the clamped relative notes, an invalid one none |
| OneTracks.OneTrack.CalculateNoteOns | midi_parser/one_tracks.py:218-230 | notesTimed grows by the markers and (pitch, held time) entries of notesRel |
| OneTracks.OneTrack.HeldTime | midi_parser/one_tracks.py:223-229 | the inner loop's dt |
| OneTracks.OneTrack.OrderNoteInPlace | midi_parser/one_tracks.py:257-273 | the in-place _orderNote agrees with OrderNote, raising exactly when it does |
| OneTracks.OneTrack.MoveUp | midi_parser/one_tracks.py:260-265 | the in-place forward loop agrees with Forward |
| OneTracks.OneTrack.MoveDown | midi_parser/one_tracks.py:267-272 | the in-place backward loop, with negative indices, agrees with Backward |
| OneTracks.OneTrack.Pass | midi_parser/one_tracks.py:250-252 | one in-place pass agrees with OrderPass |
| OneTracks.OneTrack.OrderAllInPlace | midi_parser/one_tracks.py:245-252 | the in-place _orderAll agrees with OrderAll |
| OneTracks.OneTrack.DropDuplicates | midi_parser/one_tracks.py:275-282 | the in-place removal while enumerating agrees with DropFrom |
| OneTracks.NewOneTrack | midi_parser/one_tracks.py:73-123 | the built object: key, notesRel (or the KeyError) and notesAbs |
| OneTracks.NewOnOnly | midi_parser/one_tracks.py:213-216 | a OneTrack followed by _calculateNoteOns |
| OneTracks.NewOrdered | midi_parser/one_tracks.py:239-242 | a OneTrackOnOnly followed by _orderAll and _dropDuplicates |
| Sorting.SortByPerm | midi_parser/one_tracks.py:160 | list.sort returns a permutation |
| Sorting.SortBySorted | midi_parser/one_tracks.py:160 | list.sort orders by key |
| Sorting.FilterSortBy | midi_parser/one_tracks.py:160 | the sort is stable: filtering commutes with it |
| Sorting.MapSortBy | midi_parser/one_tracks.py:160 | sorting commutes with a map that keeps the key |
| Flatteners.TrackStampsNotes | midi_parser/one_tracks.py:141-157 | a track's merge stamps and one_tracks' notes of it agree on time, pitch, type and velocity |
| Flatteners.StampsUpToNotes | midi_parser/one_tracks.py:140-157 | the same for the first n tracks, track after track |
| Flatteners.FlattenersAgree | midi_parser/midi_parser.py:326-337 | the notes _flatten emits are, in order, notesAbs of the tracks without their last messages |
| DecimalEncoders.NewOnOffEncoder | midi_parser/decimal_encoders.py:42-46 | construction fails iff parsedMidis[0][0] does not exist |
| DecimalEncoders.RawCodesTotalWait | midi_parser/decimal_encoders.py:49-57 | the wait codes carry exactly the piece's positive time |
| DecimalEncoders.RawCodesNotes | midi_parser/decimal_encoders.py:49-57 | the non-wait codes are the note codes, one per note, in order |
| DecimalEncoders.InsertDistinctValues | midi_parser/decimal_encoders.py:70 | inserting adds exactly the value |
| DecimalEncoders.InsertDistinctIncreasing | midi_parser/decimal_encoders.py:70 | inserting keeps the list strictly increasing |
| DecimalEncoders.SortedDistinctSpec | midi_parser/decimal_encoders.py:70 | sorted(list(set(s))) is strictly increasing with the values of s |
| DecimalEncoders.SortedDistinctOfIncreasing | midi_parser/decimal_encoders.py:70 | a strictly increasing list is its own sorted set |
| DecimalEncoders.NextWaitSpec | midi_parser/decimal_encoders.py:65-67 | the inner loop stops at the first wait code from p, or at the end |
| DecimalEncoders.SegmentEnd | midi_parser/decimal_encoders.py:65-69 | a segment is non-empty and inside the stream |
| DecimalEncoders.CollectSegment | midi_parser/decimal_encoders.py:64-69 | curStream is the segment from the pointer through its wait code, if any |
| DecimalEncoders.OrderNextSegment | midi_parser/decimal_encoders.py:64-71 | one outer pass appends one sorted segment |
| DecimalEncoders.Order | midi_parser/decimal_encoders.py:60-72 | the loop computes the segment-wise sorted set of the stream |
| DecimalEncoders.EncodeOne | midi_parser/decimal_encoders.py:49-58 | _encodeOne is the ordered raw codes |
| DecimalEncoders.Encode | midi_parser/decimal_encoders.py:24-25 | one encoding per piece, in order |
| DecimalEncoders.SegmentShape | midi_parser/decimal_encoders.py:64-70 | a sorted segment holds note codes, then its wait code last |
| DecimalEncoders.SegmentWaits | midi_parser/decimal_encoders.py:64-70 | sorting a segment keeps its wait codes |
| DecimalEncoders.OrderKeepsWaits | midi_parser/decimal_encoders.py:60-72 | _order keeps every wait code, in order |
| DecimalEncoders.OrderNotesIncreasing | midi_parser/decimal_encoders.py:60-72 | every note code of the result is below the code after it |
| DecimalEncoders.OrderFromOrdered | midi_parser/decimal_encoders.py:60-72 | an ordered stream, after any prefix, re-segments into the same sorted segments |
| DecimalEncoders.OrderIdempotent | midi_parser/decimal_encoders.py:60-72 | _order is idempotent |
| OtEncoders.EncodeOneNote | midi_parser/ot_encoders.py:37-43 | None time iff time 0; the pitch for a note_on, 300 otherwise; the time is min(time, nClassesTimes-1) |
| OtEncoders.EncodePairs | midi_parser/ot_encoders.py:20-29 | the two lists have equal length |
| OtEncoders.EncodeOneMido | midi_parser/ot_encoders.py:17-32 | None iff nothing was encoded, else the two lists of the loop |
| OtEncoders.EncodeKeepsPitches | midi_parser/ot_encoders.py:22-29 | apart from 300 entries, the pitches are those of the timed note_ons, in order |
| OtEncoders.EncodeTimesInRange | midi_parser/ot_encoders.py:25-29 | every emitted or merged time is in [1, nClassesTimes-1] |
| OtEncoders.EncodeNoMergeableMarkers | midi_parser/ot_encoders.py:25-29 | no two adjacent 300 entries could still be merged |
| OtEncoders.EncodeTotalTime | midi_parser/ot_encoders.py:25-29 | merging loses no time: the times sum to the clamped kept times |
| Pieces.RunStart | midi_parser/pieces.py:76 | the scan back stops at the start of the run of note codes |
| Pieces.RemoveDup | midi_parser/pieces.py:72-81 | the in-place loop with deletion agrees with RemoveDupFrom |
| Pieces.RemoveDupKeepsWaits | midi_parser/pieces.py:72-81 | wait codes are never deleted and keep their order |
| Pieces.RemoveDupSubseq | midi_parser/pieces.py:72-81 | as written and corrected, the result is a subsequence of the piece, and each code taken out is a note code equal to a kept code earlier in its run |
| Pieces.RemoveDupKeepsValues | midi_parser/pieces.py:72-81 | every value of the piece survives |
| Pieces.RemoveDupMissesRepeat | midi_parser/pieces.py:72-81 | as written three equal codes keep two; corrected one |
| Pieces.RemoveDupFixedNoRunDups | midi_parser/pieces.py:72-81 | corrected, no note code repeats a code of its run |
| Pieces.Grid | midi_parser/pieces.py:180-190 | the grid has totalTimeUnits slots |
| Pieces.CalcNoteOnNoteOffs | midi_parser/pieces.py:180-190 | the loop over a preallocated slot array agrees with Grid, IndexError included |
| Pieces.GridFits | midi_parser/pieces.py:186-189 | the grid is built iff every note-off slot lies inside it |
| Pieces.GridPlaces | midi_parser/pieces.py:186-189 | each note pair puts 150+p at its start slot and p d slots later |
| Pieces.GridNoteCodes | midi_parser/pieces.py:188-189 | with pitches below 150 every slot holds only note codes: 150+p for an onset, p for its end |
| Pieces.GridSize | midi_parser/pieces.py:180-190 | the grid holds two codes per note pair and nothing else |
| Pieces.ShortNotesFit | midi_parser/pieces.py:172 | the extra 100 slots hold every note of duration below 100 |
| Pieces.CollapseTimeUnits | midi_parser/pieces.py:193-202 | the loop computes Collapse |
| Pieces.CollapseShape | midi_parser/pieces.py:193-202 | the result is empty only for no slots, ends with a wait code and has no adjacent waits |
| Pieces.CollapseTotalWait | midi_parser/pieces.py:193-202 | the waits add up to the number of slots |
| Pieces.CollapseContents | midi_parser/pieces.py:193-202 | the note codes are the slot contents, slot after slot |
| Pieces.ConvertMultiNet | midi_parser/pieces.py:170-175 | convertToOnOff: grid of waits + 100 slots, collapsed |
| Pieces.MultiNetCodesShape | midi_parser/pieces.py:170-175 | for pitches below 150 and durations below 100 the conversion succeeds, ends in a wait, waits total the grid size, two note codes per note |
| Pieces.AddMessage | midi_parser/pieces.py:126-130 | code < 150 is a note_off, 150..299 a note_on of code-150, 300 and above no message |
| Pieces.SaveDelta | midi_parser/pieces.py:117-121 | message i waits the ticks of the wait code before it, truncated: dt * k <= units * 4 * tpb < (dt + 1) * k; with no wait code before it, 0 |
| Pieces.Piece.OnOff | midi_parser/pieces.py:65-68 | an OnOffPiece stores its codes with repeats removed |
| Pieces.Piece.MultiNet | midi_parser/pieces.py:166-175 | a MultiNetPiece stores the collapsed grid with repeats removed |
| Pieces.Piece.Save | midi_parser/pieces.py:117-122 | the message list save writes |
| RoundTrip.SaveRawCodesLate | midi_parser/pieces.py:117-122 | as written, saving the encoded piece plays each note with the wait of the note before it |
| RoundTrip.HeldNoteLosesLength | midi_parser/decimal_encoders.py:49-57 | a held note comes back with no length |
| RoundTrip.SaveWaitFirstRoundTrip | midi_parser/decimal_encoders.py:49-57 | corrected (wait first), saving gives every note its own relative time |

## Left out

- File discovery, loading, the parse queue, playback, and writing MIDI files: these are I/O. `save` is modelled as the list of messages it appends.
- Floating point: both quantisers are modelled on the exact rational `ticks * k / (4 * tpb)`. `save`'s delta is modelled as `units * 4 * tpb / k`, truncated. Float rounding at exact halves may differ.
- The broken constructors. `DurationalNote.__init__` passes `self` twice. `DecimalEncoderOnOff.__init__` calls the base constructor without `nClassesTimes`. `OTEncoder` is undefined. The encoders are modelled as the functions and methods they would run.
- The `name` attribute of `midi_parser.OneTrack`, and the mutation of the caller's mido messages by `_flatten`. Only the emitted notes are modelled. Reading the name (midi_parser.py:301) raises IndexError for a file with no tracks or an empty first track, and AttributeError when the first message has no `name`; the model does not raise these, and for a file with no tracks it accepts what the source rejects.
- Empty tracks: `Channel` reads `lst[0]`, so every track is required to be non-empty. `MidiParser.OneTrack.constructor` requires this of every piece, even one `_isValid` rejects. For such a piece the source builds no `Channel` and reads only `tracks[0][0]`, for the name.
- `Pieces.ConvertMultiNet`: the input is taken as (code, time) pairs, the shape the music generator passes. The `[codes, times]` shape that `OTEncoderMultiNet` returns is not modelled; flattened, it would be read as pairs of codes and then pairs of times.
- `OneTracks.OrderAll`: `_orderAll` loops until a pass reports no swap. The model makes at most `fuel` passes and reports `OutOfFuel` after that; non-termination is not modelled.
- `OneTracks.OneTrack.OrderNoteInPlace`: the `length` argument is taken equal to `len(notesTimed)`, as `_orderAll` passes it.
- Note identity. The shallow copy in `_convertToNotesRel` shares `notesAbs[0]` with `notesRel[0]`; that sharing is modelled by index, and no other aliasing is. `Piece._removeDup` deletes from the list it is given, and `OnOffPiece.convertToOnOff` returns its argument unchanged (pieces.py:65-81, 148-150), so the caller's list loses the same entries; the model returns the new list and does not model that mutation. `_dropDuplicates`' `list.remove(note)` removes the entry at the current index, since `Note` has no `__eq__`.
- Python's `list.sort` is modelled by the stable insertion sort `Sorting.SortBy`. Only its result is modelled.
- The state an object is left in after an exception. A failing call returns `false` or `None`.
- `RoundTrip`: the round trip is stated for the codes before `_order`. Sorting within a segment changes note order, not timing.
- The time type of an entry. `OtEncoders` treats the clamped time as an integer. It does not model `np.min` returning a numpy integer.
- `MidiParser.Note.Transpose`: the exception is modelled as `ok == false`, with the out-of-range pitch kept.

## Findings

| source | as written | input that shows it | evidently intended | confidence | as-written member | corrected member |
|---|---|---|---|---|---|---|
| midi_parser/decimal_encoders.py:49-57 | `_encodeOne` writes a note's wait after the note; `save` gives a message the wait of the code before it | note_on 60, then note_off 60 after 4 units: codes `[210, 60, 303]`, both messages at delta 0 | the wait is written before the note | not executed | RoundTrip.HeldNoteLosesLength | RoundTrip.SaveWaitFirstRoundTrip |
| midi_parser/pieces.py:72-81 | `del piece[i]` while enumerating skips the entry that moves into place i | `[210, 210, 210]` keeps `[210, 210]` | stay at index i after a deletion | not executed | Pieces.RemoveDupMissesRepeat | Pieces.RemoveDupFixedNoRunDups |
| midi_parser/one_tracks.py:225-229 | the held-time loop starts at the note_on itself, counting its own preceding wait | a note_on after a wait of 4, note_off 2 later: held 6 | start after the note_on | not executed | OneTracks.HeldGapExample | OneTracks.HeldFixedElapsed |
| midi_parser/midi_parser.py:332-333 | currentTime also advances on non-note messages, so a note's delta omits time that passed before a control message | notes at ticks 0 and 20 with a control message at 10: deltas sum to 10 | measure the delta from the previous note | not executed | MidiParser.FlattenDropsGap | MidiParser.EmitNotesFixedTotal |
| midi_parser/one_tracks.py:48-69 | the key table lacks "Cb", so a C-flat major piece raises KeyError | a key_signature "Cb" with convertToC | "Cb" maps to 11 | not executed | OneTracks.CFlatPieceFails | OneTracks.FixedTableCoversKeys |
| midi_parser/one_tracks.py:121 | the move into C subtracts 14 - offset | C 60 in C major becomes 46 (A#) | subtract the offset, add 12 - offset when wrapping | not executed | OneTracks.ConvertNoteToCMissesC | OneTracks.ConvertNoteToCFixedDegree |
| midi_parser/one_tracks.py:186 | `range(len(notesAbs[1:]) - 1)` stops before the last note | two notes at ticks 0 and 5: one entry, timeline ends at 0 | `range(len(notesAbs) - 1)` | not executed | OneTracks.RelNotesDropsLast | OneTracks.RelNotesFixedTimeline |
| midi_parser/one_tracks.py:260-264 | the forward loop has no bound at the end of the list | a final group [70, 60]: IndexError | stop at the end | not executed | OneTracks.OrderAllEndCrash | OneTracks.OrderAllBoundedGroups |
| midi_parser/one_tracks.py:267-272 | the backward loop's index goes negative and wraps to the end of the list | [80, 60, 50, marker, 90]: 50 and 90 trade places across the marker | stop at index 0 | not executed | OneTracks.OrderAllWrapsRound | OneTracks.OrderAllBoundedGroups |
| midi_parser/one_tracks.py:276-282 | `remove` while enumerating skips the entry after a removed one | four equal pitches between markers keep two | look at index i again after a removal | not executed | OneTracks.DropSkipsRepeat | OneTracks.DropFixedStrict |
