/** The two ways the repository flattens a MIDI file into one track agree on
    the notes: midi_parser's OneTrack merges the tracks message by message,
    taking the lowest track on equal absolute times and never emitting a
    track's last message; one_tracks' OneTrack lists the notes track after
    track and sorts them stably by absolute time. Both leave the notes of
    equal time in track order, so the merge's notes are, in order, the sorted
    notes of the tracks without their last messages. */
module Flatteners {
  import opened Base
  import opened Sorting
  import opened MidiParser
  import opened OneTracks

  /** What both flatteners know of a note: absolute time, pitch, type after the
      velocity-0 rule, and velocity. */
  datatype NoteKey = NoteKey(time: int, note: int, kind: Kind, velocity: int)

  function KeyTime(key: NoteKey): int {
    key.time
  }

  predicate IsNoteStamp(st: Stamp) {
    IsNoteMsg(st.msg)
  }

  function StampKey(st: Stamp): NoteKey {
    var m := st.msg;
    if IsNoteMsg(m) then NoteKey(st.abs, m.body.note, ConstructedKind(MsgKind(m), m.body.velocity), m.body.velocity)
    else NoteKey(st.abs, 0, TimeUnit, 0)
  }

  function NoteKeyOf(n: OneTracks.Note): NoteKey {
    NoteKey(n.time, n.note, n.kind, n.velocity)
  }

  /** Every track without its last message. */
  function Trimmed(tracks: seq<seq<Msg>>): (r: seq<seq<Msg>>)
    requires NonEmptyTracks(tracks)
    ensures |r| == |tracks|
    ensures forall t :: 0 <= t < |tracks| ==> r[t] == tracks[t][..|tracks[t]| - 1]
  {
    seq(|tracks|, t requires 0 <= t < |tracks| => tracks[t][..|tracks[t]| - 1])
  }

  /** The stamps of the first p messages of track t carry the notes one_tracks
      reads from those messages. */
  lemma {:induction false} TrackStampsNotes(tracks: seq<seq<Msg>>, t: nat, p: nat)
    requires t < |tracks| && 0 < |tracks[t]| && p < |tracks[t]|
    ensures Map(Filter(TrackStamps(tracks, t)[..p], IsNoteStamp), StampKey) == Map(TrackNotes(tracks[t][..p]), NoteKeyOf)
  {
    if p > 0 {
      TrackStampsNotes(tracks, t, p - 1);
      StampKeysSnoc(tracks, t, p);
      NoteKeysSnoc(tracks[t], p);
      HeadKey(tracks, t, p - 1);
    }
  }

  /** One stamp more: its key, if it is a note. */
  lemma StampKeysSnoc(tracks: seq<seq<Msg>>, t: nat, p: nat)
    requires t < |tracks| && 0 < p < |tracks[t]|
    ensures var s := TrackStamps(tracks, t);
      Map(Filter(s[..p], IsNoteStamp), StampKey)
      == Map(Filter(s[..p - 1], IsNoteStamp), StampKey) + (if IsNoteStamp(s[p - 1]) then [StampKey(s[p - 1])] else [])
  {
    var s := TrackStamps(tracks, t);
    assert s[..p] == s[..p - 1] + [s[p - 1]];
    FilterSnoc(s[..p - 1], s[p - 1], IsNoteStamp);
    MapAppend(Filter(s[..p - 1], IsNoteStamp), if IsNoteStamp(s[p - 1]) then [s[p - 1]] else [], StampKey);
  }

  /** One message more: the key of its note, if it is one. */
  lemma NoteKeysSnoc(track: seq<Msg>, p: nat)
    requires 0 < p <= |track|
    ensures Map(TrackNotes(track[..p]), NoteKeyOf)
      == Map(TrackNotes(track[..p - 1]), NoteKeyOf) + (if IsNoteMsg(track[p - 1]) then [NoteKeyOf(AbsNote(track[..p]))] else [])
  {
    var prefix := track[..p];
    assert prefix[..p - 1] == track[..p - 1];
    var last := if IsNoteMsg(track[p - 1]) then [AbsNote(prefix)] else [];
    MapAppend(TrackNotes(track[..p - 1]), last, NoteKeyOf);
  }

  /** The merge's stamp of a note message and one_tracks' note of it agree. */
  lemma HeadKey(tracks: seq<seq<Msg>>, t: nat, p: nat)
    requires t < |tracks| && p < |tracks[t]|
    ensures IsNoteMsg(tracks[t][p]) ==> StampKey(Head(tracks, t, p)) == NoteKeyOf(AbsNote(tracks[t][..p + 1]))
  {
  }

  /** Track by track, the merge's note stamps and one_tracks' unsorted notes of
      the trimmed tracks agree. */
  lemma {:induction false} StampsUpToNotes(tracks: seq<seq<Msg>>, n: nat)
    requires NonEmptyTracks(tracks) && n <= |tracks|
    ensures Map(Filter(StampsUpTo(tracks, n), IsNoteStamp), StampKey) == Map(UnsortedNotes(Trimmed(tracks)[..n]), NoteKeyOf)
  {
    if n > 0 {
      StampsUpToNotes(tracks, n - 1);
      var a, b := StampsUpTo(tracks, n - 1), TrackStamps(tracks, n - 1);
      var trimmed := Trimmed(tracks);
      assert trimmed[..n][..n - 1] == trimmed[..n - 1];
      FilterAppend(a, b, IsNoteStamp);
      MapAppend(Filter(a, IsNoteStamp), Filter(b, IsNoteStamp), StampKey);
      MapAppend(UnsortedNotes(trimmed[..n - 1]), TrackNotes(trimmed[n - 1]), NoteKeyOf);
      TrackStampsNotes(tracks, n - 1, |tracks[n - 1]| - 1);
      assert b[..|tracks[n - 1]| - 1] == b;
    }
  }

  /** The cross-check: the notes _flatten emits, in order, have the absolute
      times, pitches, types and velocities of one_tracks' notesAbs for the
      tracks without their last messages. */
  lemma FlattenersAgree(tracks: seq<seq<Msg>>)
    requires NonEmptyTracks(tracks)
    ensures Map(Filter(MergeOrder(tracks), IsNoteStamp), StampKey) == Map(NotesAbs(Trimmed(tracks)), NoteKeyOf)
  {
    var all := AllStamps(tracks);
    var trimmed := Trimmed(tracks);
    FilterSortBy(all, AbsOf, IsNoteStamp);
    MapSortBy(Filter(all, IsNoteStamp), AbsOf, StampKey, KeyTime);
    MapSortBy(UnsortedNotes(trimmed), TimeOf, NoteKeyOf, KeyTime);
    StampsUpToNotes(tracks, |tracks|);
    assert trimmed[..|tracks|] == trimmed;
  }
}
