/** midi_parser.py: the Note value with its velocity rule and checked transposition,
    the per-track Channel cursor, and the OneTrack flattener that merges all tracks
    of a MIDI file into one stream of relative-time notes by a k-way merge. */
module MidiParser {
  import opened Base
  import opened Sorting

  const MaxNote := 127
  const MinNote := 0
  const NotesInOctave := 12

  /** A RelativeNote as emitted by the flattener: time is in time units since the
      previous message of the merged stream. */
  datatype RelNote = RelNote(kind: Kind, time: int, pitch: int, velocity: int)

  /** The type a Note ends up with: a note_on of velocity 0 is a note_off. */
  function ConstructedKind(kind: Kind, velocity: int): (k: Kind)
    ensures k != kind <==> kind == NoteOn && velocity == 0
    ensures k != kind ==> k == NoteOff
    ensures k == NoteOn ==> velocity != 0
  {
    if velocity == 0 && kind == NoteOn then NoteOff else kind
  }

  datatype PitchError = AboveMax | BelowMin

  /** _checkNote: None when the pitch is a MIDI note number, else which bound it broke. */
  function CheckNote(pitch: int): (r: Option<PitchError>)
    ensures r == None <==> MinNote <= pitch <= MaxNote
    ensures r == Some(AboveMax) <==> pitch > MaxNote
  {
    if pitch > MaxNote then Some(AboveMax)
    else if pitch < MinNote then Some(BelowMin)
    else None
  }

  class Note {
    var kind: Kind
    var time: int
    var pitch: int
    var instrument: int
    var velocity: int

    constructor (kind: Kind, time: int, pitch: int, instrument: int, velocity: int)
      ensures this.kind == ConstructedKind(kind, velocity)
      ensures this.time == time && this.pitch == pitch
      ensures this.instrument == instrument && this.velocity == velocity
    {
      this.kind := ConstructedKind(kind, velocity);
      this.time := time;
      this.pitch := pitch;
      this.instrument := instrument;
      this.velocity := velocity;
    }

    /** transpose(n): the new pitch is stored first and then checked; ok is false
        exactly when the source raises, with the out-of-range pitch kept. */
    method Transpose(n: int) returns (ok: bool)
      modifies this`pitch
      ensures pitch == old(pitch) + n
      ensures ok <==> MinNote <= pitch <= MaxNote
    {
      pitch := pitch + n;
      ok := CheckNote(pitch) == None;
    }

    /** transposeByOctave(n): the same effect as Transpose(12 * n). */
    method TransposeByOctave(n: int) returns (ok: bool)
      modifies this`pitch
      ensures pitch == old(pitch) + NotesInOctave * n
      ensures ok <==> MinNote <= pitch <= MaxNote
    {
      pitch := pitch + n * NotesInOctave;
      ok := CheckNote(pitch) == None;
    }
  }

  /** Python's round() on the rational n / d: nearest integer, ties to even. */
  function RoundHalfEven(n: nat, d: nat): nat
    requires d > 0
  {
    var q, rem := n / d, n % d;
    if 2 * rem < d then q
    else if 2 * rem > d then q + 1
    else if q % 2 == 0 then q
    else q + 1
  }

  /** The rounded value is within half of d of n / d, and even on a tie. */
  lemma RoundHalfEvenNearest(n: nat, d: nat)
    requires d > 0
    ensures var r := RoundHalfEven(n, d);
      -(d as int) <= 2 * (n - r * d) <= d
      && (2 * (n - r * d) == d || 2 * (r * d - n) == d ==> r % 2 == 0)
  {
    var q, rem := n / d, n % d;
    assert n == q * d + rem;
    assert (q + 1) * d == q * d + d;
  }

  /** _timeConversion with smallestTimeUnit = 1/k: round(ticks / tpb / 4 * k). */
  function TimeConversion(ticks: nat, tpb: nat, k: nat): nat
    requires tpb > 0 && k > 0
  {
    RoundHalfEven(ticks * k, 4 * tpb)
  }

  /** Exact quantisation when one time unit is one tick (k = 4 * tpb). */
  lemma TimeConversionExact(ticks: nat, tpb: nat)
    requires tpb > 0
    ensures TimeConversion(ticks, tpb, 4 * tpb) == ticks
  {
    DivExact(ticks, 4 * tpb);
  }

  lemma DivExact(t: nat, d: nat)
    requires d > 0
    ensures (t * d) / d == t && (t * d) % d == 0
  {
    var q := (t * d) / d;
    assert (t - q) * d == t * d - q * d;
    SmallMultiple(t - q, d, (t * d) % d);
  }

  /** The only multiple of d in [0, d) is 0. */
  lemma SmallMultiple(m: int, d: int, r: int)
    requires d > 0 && 0 <= r < d && m * d == r
    ensures m == 0
  {
    assert m * d == (m - 1) * d + d;
    assert m * d == (m + 1) * d - d;
  }

  // ---------------------------------------------------------------------------
  // Key signature and validity

  predicate IsKeySignature(m: Msg) {
    m.body.KeySignature?
  }

  /** The key of the first key_signature message of one track. */
  function FirstKeyIn(track: seq<Msg>): (r: Option<string>)
    ensures r.None? <==> forall i :: 0 <= i < |track| ==> !IsKeySignature(track[i])
    ensures r.Some? ==> exists i :: (0 <= i < |track| && track[i].body == KeySignature(r.value)
                                     && forall j :: 0 <= j < i ==> !IsKeySignature(track[j]))
  {
    if track == [] then None
    else if IsKeySignature(track[0]) then Some(track[0].body.key)
    else
      var r := FirstKeyIn(track[1..]);
      assert forall i :: 1 <= i < |track| ==> track[i] == track[1..][i - 1];
      r
  }

  /** _extractKeySignature: the key of the first key_signature message, tracks in
      order and messages in order within a track. */
  function FirstKey(tracks: seq<seq<Msg>>): (r: Option<string>)
    ensures r.None? <==> forall t, i :: 0 <= t < |tracks| && 0 <= i < |tracks[t]| ==> !IsKeySignature(tracks[t][i])
    ensures r.Some? ==> exists t, i :: (0 <= t < |tracks| && 0 <= i < |tracks[t]|
                                        && tracks[t][i].body == KeySignature(r.value)
                                        && (forall j :: 0 <= j < i ==> !IsKeySignature(tracks[t][j]))
                                        && (forall u, j :: 0 <= u < t && 0 <= j < |tracks[u]| ==> !IsKeySignature(tracks[u][j])))
  {
    if tracks == [] then None
    else
      var r := FirstKeyIn(tracks[0]);
      if r.Some? then r
      else
        assert forall t :: 1 <= t < |tracks| ==> tracks[t] == tracks[1..][t - 1];
        FirstKey(tracks[1..])
  }

  /** _checkValid. */
  function CheckValid(convertToC: bool, key: Option<string>): bool {
    !(convertToC && key.None?)
  }

  /** A piece is rejected exactly when it is to be moved into C and no track holds
      a key_signature message. */
  lemma ValidIffKey(tracks: seq<seq<Msg>>, convertToC: bool)
    ensures CheckValid(convertToC, FirstKey(tracks))
        <==> !convertToC || exists t, i :: 0 <= t < |tracks| && 0 <= i < |tracks[t]| && IsKeySignature(tracks[t][i])
  {
  }

  // ---------------------------------------------------------------------------
  // Channel

  /** A cursor over one track: curTime is the absolute time of the message before
      curInd and curDt the delta of the message at curInd. */
  class Channel {
    const data: seq<Msg>
    var curInd: nat
    var curDt: nat
    var curTime: nat

    ghost predicate Valid()
      reads this
    {
      curInd < |data| && curTime == SumTimes(data[..curInd]) && curDt == data[curInd].time
    }

    /** Channel(lst): the source reads lst[0] and raises on an empty track. */
    constructor (lst: seq<Msg>)
      requires |lst| > 0
      ensures data == lst && curInd == 0 && Valid()
    {
      data := lst;
      curInd := 0;
      curDt := lst[0].time;
      curTime := 0;
    }

    /** getNextIncreasedTime: the absolute time of the message at curInd, or None
        (NaN) when curInd is the last index. */
    function NextIncreasedTime(): (r: Option<nat>)
      reads this
      requires Valid()
      ensures r.None? <==> curInd == |data| - 1
      ensures r.Some? ==> r.value == SumTimes(data[..curInd + 1])
    {
      assert data[..curInd + 1][..curInd] == data[..curInd];
      if curInd != |data| - 1 then Some(curDt + curTime) else None
    }

    /** advance: returns the message at the old curInd with its absolute time. */
    method Advance() returns (msg: Msg, time: nat)
      requires Valid() && curInd < |data| - 1
      modifies this
      ensures Valid() && curInd == old(curInd) + 1
      ensures msg == data[old(curInd)] && time == SumTimes(data[..curInd])
    {
      assert data[..curInd + 1][..curInd] == data[..curInd];
      curInd := curInd + 1;
      curTime := curTime + curDt;
      curDt := data[curInd].time;
      msg, time := data[curInd - 1], curTime;
    }
  }

  // ---------------------------------------------------------------------------
  // The merge order

  /** A message of track `track` at position `pos`, with its absolute time. */
  datatype Stamp = Stamp(abs: nat, track: nat, pos: nat, msg: Msg)

  /** The merge order: absolute time, then lower track, then earlier position. */
  predicate Less(a: Stamp, b: Stamp) {
    a.abs < b.abs || (a.abs == b.abs && TieLess(a, b))
  }

  predicate TieLess(a: Stamp, b: Stamp) {
    a.track < b.track || (a.track == b.track && a.pos < b.pos)
  }

  ghost predicate StrictlySorted(s: seq<Stamp>) {
    forall i, j :: 0 <= i < j < |s| ==> Less(s[i], s[j])
  }

  ghost predicate NonEmptyTracks(tracks: seq<seq<Msg>>) {
    forall t :: 0 <= t < |tracks| ==> |tracks[t]| > 0
  }

  function Head(tracks: seq<seq<Msg>>, t: nat, p: nat): (st: Stamp)
    requires t < |tracks| && p < |tracks[t]|
    ensures st.track == t && st.pos == p
  {
    Stamp(SumTimes(tracks[t][..p + 1]), t, p, tracks[t][p])
  }

  /** A message the merge emits: any message of a track but the last. */
  ghost predicate IsStamp(tracks: seq<seq<Msg>>, st: Stamp) {
    st.track < |tracks| && st.pos + 1 < |tracks[st.track]|
    && st.abs == SumTimes(tracks[st.track][..st.pos + 1]) && st.msg == tracks[st.track][st.pos]
  }

  function TrackStamps(tracks: seq<seq<Msg>>, t: nat): (r: seq<Stamp>)
    requires t < |tracks| && |tracks[t]| > 0
    ensures |r| == |tracks[t]| - 1
    ensures forall p :: 0 <= p < |r| ==> r[p] == Head(tracks, t, p)
  {
    seq(|tracks[t]| - 1, p requires 0 <= p < |tracks[t]| - 1 => Head(tracks, t, p))
  }

  /** The emitted messages of the first n tracks, track by track. */
  function StampsUpTo(tracks: seq<seq<Msg>>, n: nat): seq<Stamp>
    requires n <= |tracks| && NonEmptyTracks(tracks)
  {
    if n == 0 then [] else StampsUpTo(tracks, n - 1) + TrackStamps(tracks, n - 1)
  }

  ghost predicate TieSorted(s: seq<Stamp>) {
    forall i, j :: 0 <= i < j < |s| ==> TieLess(s[i], s[j])
  }

  lemma {:induction false} StampsUpToShape(tracks: seq<seq<Msg>>, n: nat)
    requires n <= |tracks| && NonEmptyTracks(tracks)
    ensures var s := StampsUpTo(tracks, n);
      TieSorted(s)
      && (forall i :: 0 <= i < |s| ==> s[i].track < n)
      && forall st :: st in s <==> IsStamp(tracks, st) && st.track < n
  {
    if n > 0 {
      StampsUpToShape(tracks, n - 1);
      var a, b := StampsUpTo(tracks, n - 1), TrackStamps(tracks, n - 1);
      var s := a + b;
      forall st | IsStamp(tracks, st) && st.track == n - 1 ensures st in b {
        assert b[st.pos] == st;
      }
      forall i, j | 0 <= i < j < |s| ensures TieLess(s[i], s[j]) {
        if j < |a| {
          assert s[i] == a[i] && s[j] == a[j];
        } else if i >= |a| {
          assert s[i] == b[i - |a|] && s[j] == b[j - |a|];
        } else {
          assert s[i] == a[i] && s[j] == b[j - |a|];
        }
      }
    }
  }

  function AllStamps(tracks: seq<seq<Msg>>): seq<Stamp>
    requires NonEmptyTracks(tracks)
  {
    StampsUpTo(tracks, |tracks|)
  }

  function AbsOf(st: Stamp): int {
    st.abs
  }

  /** The order the k-way merge emits messages in: a stable sort by absolute time
      of all emitted messages, listed track by track. */
  function MergeOrder(tracks: seq<seq<Msg>>): (r: seq<Stamp>)
    requires NonEmptyTracks(tracks)
    ensures AbsSorted(r)
  {
    SortBySorted(AllStamps(tracks), AbsOf);
    SortBy(AllStamps(tracks), AbsOf)
  }

  lemma {:induction false} InsertStrict(x: Stamp, t: seq<Stamp>)
    requires StrictlySorted(t)
    requires forall y :: y in t ==> TieLess(y, x)
    ensures StrictlySorted(Insert(x, t, AbsOf))
    decreases |t|
  {
    if t == [] || AbsOf(x) < AbsOf(t[0]) {
      var r := [x] + t;
      forall i, j | 0 <= i < j < |r| ensures Less(r[i], r[j]) {
        if i == 0 {
          if j > 1 {
            assert Less(t[0], t[j - 1]);
          }
        } else {
          assert r[i] == t[i - 1] && r[j] == t[j - 1];
        }
      }
    } else {
      var u := t[1..];
      assert StrictlySorted(u);
      InsertStrict(x, u);
      var r := Insert(x, u, AbsOf);
      InsertPerm(x, u, AbsOf);
      assert t[0] in t;
      forall j | 0 <= j < |r| ensures Less(t[0], r[j]) {
        assert r[j] in multiset(r);
        if r[j] != x {
          assert r[j] in multiset(u);
          var m :| 0 <= m < |u| && u[m] == r[j];
          assert u[m] == t[m + 1];
        }
      }
      var w := [t[0]] + r;
      forall i, j | 0 <= i < j < |w| ensures Less(w[i], w[j]) {
        if i > 0 {
          assert w[i] == r[i - 1] && w[j] == r[j - 1];
        }
      }
    }
  }

  /** The stable sort of a list ordered by (track, position) is ordered by the
      full merge order. */
  lemma {:induction false} SortByStrict(s: seq<Stamp>)
    requires TieSorted(s)
    ensures StrictlySorted(SortBy(s, AbsOf))
  {
    if s != [] {
      var init, x := s[..|s| - 1], s[|s| - 1];
      assert TieSorted(init);
      SortByStrict(init);
      SortByPerm(init, AbsOf);
      forall y | y in SortBy(init, AbsOf) ensures TieLess(y, x) {
        assert y in multiset(init);
        var m :| 0 <= m < |init| && init[m] == y;
      }
      InsertStrict(x, SortBy(init, AbsOf));
    }
  }

  /** Two lists strictly ordered by the merge order with the same members are equal. */
  lemma {:induction false} StrictlySortedUnique(a: seq<Stamp>, b: seq<Stamp>)
    requires StrictlySorted(a) && StrictlySorted(b)
    requires forall st :: st in a <==> st in b
    ensures a == b
    decreases |a|
  {
    assert a != [] ==> a[0] in a;
    assert b != [] ==> b[0] in b;
    if a != [] && b != [] {
      var i :| 0 <= i < |b| && b[i] == a[0];
      var j :| 0 <= j < |a| && a[j] == b[0];
      assert a[0] == b[0];
      forall st ensures st in a[1..] <==> st in b[1..] {
        if st in a[1..] {
          var m :| 0 <= m < |a| - 1 && a[1..][m] == st;
          assert Less(a[0], a[m + 1]);
          assert a[m + 1] in a;
          var n :| 0 <= n < |b| && b[n] == st;
          assert n != 0;
          assert b[1..][n - 1] == st;
        }
        if st in b[1..] {
          var m :| 0 <= m < |b| - 1 && b[1..][m] == st;
          assert Less(b[0], b[m + 1]);
          assert b[m + 1] in b;
          var n :| 0 <= n < |a| && a[n] == st;
          assert n != 0;
          assert a[1..][n - 1] == st;
        }
      }
      StrictlySortedUnique(a[1..], b[1..]);
      assert a == [a[0]] + a[1..] && b == [b[0]] + b[1..];
    }
  }

  /** The merge order is strictly ordered and holds exactly the emitted messages. */
  lemma MergeOrderShape(tracks: seq<seq<Msg>>)
    requires NonEmptyTracks(tracks)
    ensures StrictlySorted(MergeOrder(tracks))
    ensures forall st :: st in MergeOrder(tracks) <==> IsStamp(tracks, st)
  {
    StampsUpToShape(tracks, |tracks|);
    SortByStrict(AllStamps(tracks));
    SortByPerm(AllStamps(tracks), AbsOf);
    forall st ensures st in MergeOrder(tracks) <==> st in AllStamps(tracks) {
      assert st in MergeOrder(tracks) <==> st in multiset(MergeOrder(tracks));
    }
  }

  // ---------------------------------------------------------------------------
  // What _flatten emits

  /** The absolute time of the message before position i (0 before the first). */
  function PrevAbs(s: seq<Stamp>, i: nat): nat
    requires i <= |s|
  {
    if i == 0 then 0 else s[i - 1].abs
  }

  ghost predicate AbsSorted(s: seq<Stamp>) {
    forall i, j :: 0 <= i < j < |s| ==> s[i].abs <= s[j].abs
  }

  /** The RelativeNote built for a note message and a delta in ticks. */
  function Emit(m: Msg, ticks: nat, tpb: nat, k: nat): (n: RelNote)
    requires IsNoteMsg(m) && tpb > 0 && k > 0
    ensures n.pitch == m.body.note && n.velocity == m.body.velocity
    ensures n.kind == ConstructedKind(MsgKind(m), m.body.velocity)
  {
    RelNote(ConstructedKind(MsgKind(m), m.body.velocity), TimeConversion(ticks, tpb, k), m.body.note, m.body.velocity)
  }

  /** The notes _flatten appends for the merged messages s: a note's delta is its
      absolute time minus that of the message merged just before it, whatever
      that message was. */
  function EmitNotes(s: seq<Stamp>, tpb: nat, k: nat): seq<RelNote>
    requires AbsSorted(s) && tpb > 0 && k > 0
  {
    if s == [] then []
    else
      var x := s[|s| - 1];
      assert AbsSorted(s[..|s| - 1]);
      EmitNotes(s[..|s| - 1], tpb, k)
        + if IsNoteMsg(x.msg) then [Emit(x.msg, x.abs - PrevAbs(s, |s| - 1), tpb, k)] else []
  }

  lemma StrictToAbs(s: seq<Stamp>)
    requires StrictlySorted(s)
    ensures AbsSorted(s)
  {
  }

  lemma EmitNotesSnoc(s: seq<Stamp>, x: Stamp, tpb: nat, k: nat)
    requires AbsSorted(s + [x]) && tpb > 0 && k > 0
    ensures AbsSorted(s) && PrevAbs(s, |s|) <= x.abs
    ensures EmitNotes(s + [x], tpb, k)
         == EmitNotes(s, tpb, k) + if IsNoteMsg(x.msg) then [Emit(x.msg, x.abs - PrevAbs(s, |s|), tpb, k)] else []
  {
    assert (s + [x])[..|s|] == s;
    assert forall i :: 0 <= i < |s| ==> s[i] == (s + [x])[i];
    if s != [] {
      assert (s + [x])[|s| - 1] == s[|s| - 1] && (s + [x])[|s|] == x;
    }
  }

  /** The sum of the relative times of a note stream: the absolute time a reader
      that adds the times up reaches at its last note. */
  function TotalRelTime(notes: seq<RelNote>): int {
    if notes == [] then 0 else TotalRelTime(notes[..|notes| - 1]) + notes[|notes| - 1].time
  }

  /** The absolute time of the last note message among s (0 when there is none). */
  function LastNoteAbs(s: seq<Stamp>): nat {
    if s == [] then 0
    else if IsNoteMsg(s[|s| - 1].msg) then s[|s| - 1].abs
    else LastNoteAbs(s[..|s| - 1])
  }

  lemma {:induction false} LastNoteAbsBounded(s: seq<Stamp>, b: nat)
    requires forall i :: 0 <= i < |s| ==> s[i].abs <= b
    ensures LastNoteAbs(s) <= b
  {
    if s != [] && !IsNoteMsg(s[|s| - 1].msg) {
      LastNoteAbsBounded(s[..|s| - 1], b);
    }
  }

  /** The notes the flattener evidently means to emit: a note's delta is measured
      from the previous NOTE, so that the times of the stream add up to the
      notes' absolute times even when other messages lie in between. */
  function EmitNotesFixed(s: seq<Stamp>, tpb: nat, k: nat): seq<RelNote>
    requires AbsSorted(s) && tpb > 0 && k > 0
  {
    if s == [] then []
    else
      var x, init := s[|s| - 1], s[..|s| - 1];
      assert AbsSorted(init);
      LastNoteAbsBounded(init, x.abs);
      EmitNotesFixed(init, tpb, k)
        + if IsNoteMsg(x.msg) then [Emit(x.msg, x.abs - LastNoteAbs(init), tpb, k)] else []
  }

  /** With one time unit per tick the corrected stream's times add up to the
      absolute time of its last note. */
  lemma {:induction false} EmitNotesFixedTotal(s: seq<Stamp>, tpb: nat)
    requires AbsSorted(s) && tpb > 0
    ensures TotalRelTime(EmitNotesFixed(s, tpb, 4 * tpb)) == LastNoteAbs(s)
  {
    if s != [] {
      var x, init := s[|s| - 1], s[..|s| - 1];
      assert AbsSorted(init);
      EmitNotesFixedTotal(init, tpb);
      if IsNoteMsg(x.msg) {
        LastNoteAbsBounded(init, x.abs);
        TimeConversionExact(x.abs - LastNoteAbs(init), tpb);
        var e := EmitNotesFixed(init, tpb, 4 * tpb);
        var n := Emit(x.msg, x.abs - LastNoteAbs(init), tpb, 4 * tpb);
        assert EmitNotesFixed(s, tpb, 4 * tpb) == e + [n];
        assert n.time == x.abs - LastNoteAbs(init);
        assert (e + [n])[..|e|] == e;
      } else {
        assert EmitNotesFixed(s, tpb, 4 * tpb) == EmitNotesFixed(init, tpb, 4 * tpb);
      }
    }
  }

  /** The correction changes only the times: both streams hold the same notes
      with the same types, pitches and velocities. */
  lemma {:induction false} EmitNotesFixedSameNotes(s: seq<Stamp>, tpb: nat, k: nat)
    requires AbsSorted(s) && tpb > 0 && k > 0
    ensures var a, b := EmitNotes(s, tpb, k), EmitNotesFixed(s, tpb, k);
      |a| == |b|
      && forall i :: 0 <= i < |a| ==> a[i].kind == b[i].kind && a[i].pitch == b[i].pitch && a[i].velocity == b[i].velocity
  {
    if s != [] {
      assert AbsSorted(s[..|s| - 1]);
      EmitNotesFixedSameNotes(s[..|s| - 1], tpb, k);
    }
  }

  /** One track: note 60 at tick 0, a control message at tick 10, note 64 at
      tick 20, and the end-of-track message. */
  function GapTrack(): seq<Msg> {
    [Msg(0, NoteOnMsg(60, 100)), Msg(10, OtherMsg), Msg(10, NoteOnMsg(64, 100)), Msg(0, OtherMsg)]
  }

  /** The stamps of GapTrack: ticks 0, 10 and 20 for its first three messages. */
  lemma GapTrackStamps()
    ensures TrackStamps([GapTrack()], 0)
         == [Stamp(0, 0, 0, GapTrack()[0]), Stamp(10, 0, 1, GapTrack()[1]), Stamp(20, 0, 2, GapTrack()[2])]
  {
    var track := GapTrack();
    assert track[..1][..0] == [] && track[..2][..1] == track[..1] && track[..3][..2] == track[..2];
    assert SumTimes(track[..1]) == 0;
    assert SumTimes(track[..2]) == SumTimes(track[..1]) + track[1].time == 10;
    assert SumTimes(track[..3]) == SumTimes(track[..2]) + track[2].time == 20;
  }

  lemma GapTrackOrder()
    ensures MergeOrder([GapTrack()])
         == [Stamp(0, 0, 0, GapTrack()[0]), Stamp(10, 0, 1, GapTrack()[1]), Stamp(20, 0, 2, GapTrack()[2])]
  {
    var track := GapTrack();
    var tracks := [track];
    var a, b, c := Stamp(0, 0, 0, track[0]), Stamp(10, 0, 1, track[1]), Stamp(20, 0, 2, track[2]);
    GapTrackStamps();
    assert AllStamps(tracks) == StampsUpTo(tracks, 0) + TrackStamps(tracks, 0) == [a, b, c];
    assert [a, b, c][..2] == [a, b] && [a, b][..1] == [a];
    assert SortBy([a], AbsOf) == [a];
    assert Insert(b, [a], AbsOf) == [a] + Insert(b, [], AbsOf) == [a, b];
    assert SortBy([a, b], AbsOf) == [a, b];
    assert Insert(c, [a, b], AbsOf) == [a] + Insert(c, [b], AbsOf);
    assert Insert(c, [b], AbsOf) == [b] + Insert(c, [], AbsOf);
  }

  /** As written: note 64 gets the delta from the control message. */
  lemma GapEmitted()
    ensures var track := GapTrack();
      EmitNotes([Stamp(0, 0, 0, track[0]), Stamp(10, 0, 1, track[1]), Stamp(20, 0, 2, track[2])], 1, 4)
      == [Emit(track[0], 0, 1, 4), Emit(track[2], 10, 1, 4)]
  {
    var track := GapTrack();
    var a, b, c := Stamp(0, 0, 0, track[0]), Stamp(10, 0, 1, track[1]), Stamp(20, 0, 2, track[2]);
    assert [a, b, c][..2] == [a, b] && [a, b][..1] == [a] && [a][..0] == [];
    assert EmitNotes([a], 1, 4) == [Emit(track[0], 0, 1, 4)];
    assert EmitNotes([a, b], 1, 4) == [Emit(track[0], 0, 1, 4)];
  }

  /** Corrected: note 64 gets the delta from note 60. */
  lemma GapEmittedFixed()
    ensures var track := GapTrack();
      EmitNotesFixed([Stamp(0, 0, 0, track[0]), Stamp(10, 0, 1, track[1]), Stamp(20, 0, 2, track[2])], 1, 4)
      == [Emit(track[0], 0, 1, 4), Emit(track[2], 20, 1, 4)]
  {
    var track := GapTrack();
    var a, b, c := Stamp(0, 0, 0, track[0]), Stamp(10, 0, 1, track[1]), Stamp(20, 0, 2, track[2]);
    assert [a, b, c][..2] == [a, b] && [a, b][..1] == [a] && [a][..0] == [];
    assert EmitNotesFixed([a], 1, 4) == [Emit(track[0], 0, 1, 4)];
    assert EmitNotesFixed([a, b], 1, 4) == [Emit(track[0], 0, 1, 4)];
    assert LastNoteAbs([a, b]) == 0;
  }

  /** As written, a message that is not a note still moves currentTime: in
      GapTrack note 64 gets the delta 10 and the stream's times add up to 10,
      not to note 64's tick 20; the corrected stream reaches 20. */
  lemma FlattenDropsGap()
    ensures var order := MergeOrder([GapTrack()]);
      TotalRelTime(EmitNotes(order, 1, 4)) == 10
      && LastNoteAbs(order) == 20
      && TotalRelTime(EmitNotesFixed(order, 1, 4)) == 20
  {
    var track := GapTrack();
    GapTrackOrder();
    GapEmitted();
    GapEmittedFixed();
    TimeConversionExact(0, 1);
    TimeConversionExact(10, 1);
    TimeConversionExact(20, 1);
    var n0, n10, n20 := Emit(track[0], 0, 1, 4), Emit(track[2], 10, 1, 4), Emit(track[2], 20, 1, 4);
    assert n0.time == 0 && n10.time == 10 && n20.time == 20;
    assert [n0, n10][..1] == [n0] && [n0, n20][..1] == [n0] && [n0][..0] == [];
    assert TotalRelTime([n0]) == 0;
    assert TotalRelTime([n0, n10]) == 10 && TotalRelTime([n0, n20]) == 20;
  }

  /** The k-way merge state: inds[t] messages of track t are out, in the merge
      order, and each is before every message still to come. */
  ghost predicate MergeInv(tracks: seq<seq<Msg>>, inds: seq<nat>, emitted: seq<Stamp>) {
    NonEmptyTracks(tracks) && |inds| == |tracks|
    && (forall t :: 0 <= t < |tracks| ==> inds[t] < |tracks[t]|)
    && StrictlySorted(emitted)
    && (forall st :: st in emitted <==> IsStamp(tracks, st) && st.pos < inds[st.track])
    && (forall a, st :: a in emitted && IsStamp(tracks, st) && st.pos >= inds[st.track] ==> Less(a, st))
  }

  /** The next absolute time of track t, None once only its last message is left. */
  function NextTime(tracks: seq<seq<Msg>>, inds: seq<nat>, t: nat): Option<nat>
    requires |inds| == |tracks| && t < |tracks| && inds[t] < |tracks[t]|
  {
    if inds[t] < |tracks[t]| - 1 then Some(Head(tracks, t, inds[t]).abs) else None
  }

  /** One step of the merge: advancing the lowest-index channel with the least
      next time emits the merge-order successor. */
  lemma MergeStep(tracks: seq<seq<Msg>>, inds: seq<nat>, emitted: seq<Stamp>, xs: seq<Option<nat>>, ind: nat)
    requires MergeInv(tracks, inds, emitted)
    requires |xs| == |tracks| && forall t :: 0 <= t < |xs| ==> xs[t] == NextTime(tracks, inds, t)
    requires ind < |xs| && xs[ind].Some?
    requires forall j :: 0 <= j < |xs| && xs[j].Some? ==> xs[ind].value <= xs[j].value
    requires forall j :: 0 <= j < ind && xs[j].Some? ==> xs[ind].value < xs[j].value
    ensures var st := Head(tracks, ind, inds[ind]);
      IsStamp(tracks, st)
      && MergeInv(tracks, inds[ind := inds[ind] + 1], emitted + [st])
      && (emitted != [] ==> Less(emitted[|emitted| - 1], st))
  {
    var st := Head(tracks, ind, inds[ind]);
    var inds' := inds[ind := inds[ind] + 1];
    var e := emitted + [st];
    assert IsStamp(tracks, st);
    forall i, j | 0 <= i < j < |e| ensures Less(e[i], e[j]) {
      if j == |emitted| {
        assert e[i] in emitted;
      } else {
        assert e[i] == emitted[i] && e[j] == emitted[j];
      }
    }
    forall r | IsStamp(tracks, r) && r.pos >= inds'[r.track] ensures Less(st, r) {
      var c := r.track;
      var h := Head(tracks, c, inds[c]);
      SumTimesMonotone(tracks[c], inds[c] + 1, r.pos + 1);
      assert xs[c] == Some(h.abs);
      if c == ind {
        SumTimesMonotone(tracks[c], inds[c] + 1, r.pos + 1);
      }
    }
    forall a, r | a in e && IsStamp(tracks, r) && r.pos >= inds'[r.track] ensures Less(a, r) {
      if a != st {
        assert a in emitted;
      }
    }
    forall x | IsStamp(tracks, x) && x.pos < inds'[x.track] ensures x in e {
      if x.track == ind && x.pos == inds[ind] {
        assert x == st;
      } else {
        assert x in emitted;
      }
    }
  }

  lemma SumBelow(a: seq<int>, b: seq<int>)
    requires |a| == |b| && forall t :: 0 <= t < |a| ==> a[t] <= b[t]
    ensures Sum(a) <= Sum(b)
    ensures Sum(a) == Sum(b) ==> forall t :: 0 <= t < |a| ==> a[t] == b[t]
    ensures Sum(a) < Sum(b) ==> exists t :: 0 <= t < |a| && a[t] < b[t]
  {
    if a != [] {
      SumBelow(a[..|a| - 1], b[..|b| - 1]);
      if Sum(a) < Sum(b) && a[|a| - 1] == b[|b| - 1] {
        var t :| 0 <= t < |a| - 1 && a[..|a| - 1][t] < b[..|b| - 1][t];
        assert a[t] < b[t];
      }
    }
  }

  lemma SumBump(a: seq<int>, t: nat)
    requires t < |a|
    ensures Sum(a[t := a[t] + 1]) == Sum(a) + 1
  {
    if t < |a| - 1 {
      assert a[t := a[t] + 1][..|a| - 1] == a[..|a| - 1][t := a[t] + 1];
      SumBump(a[..|a| - 1], t);
    } else {
      assert a[t := a[t] + 1][..|a| - 1] == a[..|a| - 1];
    }
  }

  /** Number of advances _flatten performs per track: all messages but the last. */
  function Steps(tracks: seq<seq<Msg>>): (r: seq<int>)
    ensures |r| == |tracks|
    ensures forall t :: 0 <= t < |tracks| ==> r[t] == |tracks[t]| - 1
  {
    seq(|tracks|, t requires 0 <= t < |tracks| => |tracks[t]| - 1)
  }

  /** nanargmin with None for NaN: the lowest index holding the least value. */
  function ArgMin(xs: seq<Option<nat>>): (r: nat)
    requires exists j :: 0 <= j < |xs| && xs[j].Some?
    ensures r < |xs| && xs[r].Some?
    ensures forall j :: 0 <= j < |xs| && xs[j].Some? ==> xs[r].value <= xs[j].value
    ensures forall j :: 0 <= j < r && xs[j].Some? ==> xs[r].value < xs[j].value
  {
    var init := xs[..|xs| - 1];
    if exists j :: 0 <= j < |init| && init[j].Some? then
      var r := ArgMin(init);
      if xs[|xs| - 1].Some? && xs[|xs| - 1].value < xs[r].value then |xs| - 1 else r
    else |xs| - 1
  }

  // ---------------------------------------------------------------------------
  // OneTrack

  class OneTrack {
    const convertToC: bool
    const key: Option<string>
    const tpb: nat
    /** smallestTimeUnit is 1/k of a whole note. */
    const k: nat
    ghost const tracks: seq<seq<Msg>>
    const channels: seq<Channel>
    const valid: bool
    var currentTime: nat
    var track: Option<seq<RelNote>>

    /** Channel c reads track c and has advanced inds[c] times; channels are distinct. */
    ghost predicate ChannelsAt(inds: seq<nat>)
      reads channels
    {
      |channels| == |tracks| == |inds|
      && (forall a, b :: 0 <= a < b < |channels| ==> channels[a] != channels[b])
      && forall c :: 0 <= c < |channels| ==>
        channels[c].data == tracks[c] && channels[c].Valid() && channels[c].curInd == inds[c]
    }

    /** OneTrack(mido, ...): the key, the validity, and for a valid piece the
        merged notes. */
    constructor (tracks: seq<seq<Msg>>, tpb: nat, k: nat, convertToC: bool)
      requires tpb > 0 && k > 0 && NonEmptyTracks(tracks)
      ensures this.tracks == tracks && this.tpb == tpb && this.k == k
      ensures key == FirstKey(tracks) && valid == CheckValid(convertToC, key)
      ensures valid ==> track == Some(EmitNotes(MergeOrder(tracks), tpb, k))
      ensures !valid ==> track == None
    {
      this.convertToC := convertToC;
      this.key := FirstKey(tracks);
      this.tpb := tpb;
      this.k := k;
      this.tracks := tracks;
      this.valid := CheckValid(convertToC, FirstKey(tracks));
      var cs: seq<Channel> := [];
      if CheckValid(convertToC, FirstKey(tracks)) {
        cs := NewChannels(tracks);
      }
      this.channels := cs;
      this.currentTime := 0;
      this.track := None;
      new;
      if valid {
        assert ChannelsAt(seq(|tracks|, _ => 0));
        var notes := Flatten();
        track := Some(notes);
      }
    }

    /** The next absolute time of every channel, in channel order. */
    method IncreasedTimes(ghost inds: seq<nat>) returns (xs: seq<Option<nat>>)
      requires ChannelsAt(inds) && forall t :: 0 <= t < |tracks| ==> inds[t] < |tracks[t]|
      ensures |xs| == |tracks|
      ensures forall t :: 0 <= t < |tracks| ==> xs[t] == NextTime(tracks, inds, t)
    {
      xs := [];
      for c := 0 to |channels|
        invariant |xs| == c
        invariant forall d :: 0 <= d < c ==> xs[d] == channels[d].NextIncreasedTime()
      {
        xs := xs + [channels[c].NextIncreasedTime()];
      }
    }

    /** self.channels[ind].advance(), with what it means for the whole cursor state. */
    method AdvanceAt(ghost inds: seq<nat>, ind: nat) returns (msg: Msg, time: nat)
      requires ChannelsAt(inds) && ind < |inds| && inds[ind] < |tracks[ind]| - 1
      modifies channels
      ensures ChannelsAt(inds[ind := inds[ind] + 1])
      ensures Head(tracks, ind, inds[ind]) == Stamp(time, ind, inds[ind], msg)
    {
      msg, time := channels[ind].Advance();
    }

    /** The advance and append of one pass of the _flatten loop, once the
        channel ind has been chosen. */
    method Step(ghost inds: seq<nat>, ind: nat, ghost st: Stamp, ghost prev: nat) returns (note: Option<RelNote>)
      requires tpb > 0 && k > 0
      requires ChannelsAt(inds) && ind < |inds| && inds[ind] < |tracks[ind]| - 1
      requires st == Head(tracks, ind, inds[ind]) && currentTime == prev <= st.abs
      modifies this`currentTime, channels
      ensures ChannelsAt(inds[ind := inds[ind] + 1])
      ensures currentTime == st.abs
      ensures note == if IsNoteMsg(st.msg) then Some(Emit(st.msg, st.abs - prev, tpb, k)) else None
    {
      var nextNote, noteTime := AdvanceAt(inds, ind);
      var delta := noteTime - currentTime;
      currentTime := currentTime + delta;
      if IsNoteMsg(nextNote) {
        note := Some(Emit(nextNote, delta, tpb, k));
      } else {
        note := None;
      }
    }

    /** The choice of one pass: the channel whose next increased time is least,
        the lowest index among equals, and the merge-order message it emits. */
    method Choose(ghost inds: seq<nat>, ghost emitted: seq<Stamp>, total: nat)
      returns (ind: nat, ghost st: Stamp, ghost inds': seq<nat>, ghost emitted': seq<Stamp>)
      requires tpb > 0 && k > 0 && total == Sum(Steps(tracks))
      requires ChannelsAt(inds) && MergeInv(tracks, inds, emitted) && Sum(inds) < total
      ensures ind < |inds| && inds[ind] < |tracks[ind]| - 1 && st == Head(tracks, ind, inds[ind])
      ensures inds' == inds[ind := inds[ind] + 1] && emitted' == emitted + [st]
      ensures PrevAbs(emitted, |emitted|) <= st.abs
      ensures MergeInv(tracks, inds', emitted') && Sum(inds') == Sum(inds) + 1
      ensures AbsSorted(emitted') && PrevAbs(emitted', |emitted'|) == st.abs
      ensures EmitNotes(emitted', tpb, k) == EmitNotes(emitted, tpb, k)
        + if IsNoteMsg(st.msg) then [Emit(st.msg, st.abs - PrevAbs(emitted, |emitted|), tpb, k)] else []
    {
      var increasedTimes := IncreasedTimes(inds);
      ghost var left := MergeLeft(tracks, inds, total);
      assert increasedTimes[left].Some?;
      ind := ArgMin(increasedTimes);
      st := MergeAdvance(tracks, inds, emitted, increasedTimes, ind, tpb, k);
      inds', emitted' := inds[ind := inds[ind] + 1], emitted + [st];
    }

    /** The state of _flatten after the messages `emitted`: the channels stand
        at inds, currentTime is the last absolute time and notes holds the
        RelativeNotes of the emitted note messages. */
    ghost predicate Flattening(inds: seq<nat>, emitted: seq<Stamp>, notes: seq<RelNote>)
      reads this, channels
    {
      tpb > 0 && k > 0 && ChannelsAt(inds) && MergeInv(tracks, inds, emitted)
      && currentTime == PrevAbs(emitted, |emitted|)
      && AbsSorted(emitted) && notes == EmitNotes(emitted, tpb, k)
    }

    /** One pass of the _flatten loop: ask every channel for its next time, advance
        the one with the least (lowest index on ties) and append its RelativeNote. */
    method Pass(ghost inds: seq<nat>, ghost emitted: seq<Stamp>, notes: seq<RelNote>, total: nat)
      returns (notes': seq<RelNote>, ghost inds': seq<nat>, ghost emitted': seq<Stamp>)
      requires tpb > 0 && k > 0 && total == Sum(Steps(tracks))
      requires Flattening(inds, emitted, notes) && Sum(inds) < total
      modifies this`currentTime, channels
      ensures Flattening(inds', emitted', notes') && Sum(inds') == Sum(inds) + 1
    {
      var ind;
      ghost var st;
      ind, st, inds', emitted' := Choose(inds, emitted, total);
      ghost var prev := PrevAbs(emitted, |emitted|);
      var note := Step(inds, ind, st, prev);
      notes' := notes;
      if note.Some? {
        notes' := notes' + [note.value];
      }
    }

    /** _flatten: Σ(len - 1) times, advance the channel with the least next time
        (lowest index on ties), set the message's delta against currentTime, and
        append a RelativeNote for note messages. */
    method Flatten() returns (notes: seq<RelNote>)
      requires tpb > 0 && k > 0 && NonEmptyTracks(tracks)
      requires ChannelsAt(seq(|tracks|, _ => 0)) && currentTime == 0
      modifies this, channels
      ensures notes == EmitNotes(MergeOrder(tracks), tpb, k)
      ensures currentTime == PrevAbs(MergeOrder(tracks), |MergeOrder(tracks)|)
    {
      notes := [];
      ghost var inds: seq<nat> := seq(|tracks|, _ => 0);
      ghost var emitted: seq<Stamp> := [];
      MergeInit(tracks);
      var total := TotalSteps();
      for i := 0 to total
        invariant Flattening(inds, emitted, notes) && Sum(inds) == i
      {
        notes, inds, emitted := Pass(inds, emitted, notes, total);
      }
      MergeDone(tracks, inds, emitted);
    }

    /** The number of passes of _flatten: Σ(len(channel) - 1). */
    method TotalSteps() returns (total: nat)
      requires |channels| == |tracks| && NonEmptyTracks(tracks)
      requires forall c :: 0 <= c < |channels| ==> channels[c].data == tracks[c]
      ensures total == Sum(Steps(tracks))
    {
      total := 0;
      for c := 0 to |channels|
        invariant total == Sum(Steps(tracks)[..c])
      {
        assert Steps(tracks)[..c + 1][..c] == Steps(tracks)[..c];
        total := total + |channels[c].data| - 1;
      }
      assert Steps(tracks)[..|channels|] == Steps(tracks);
    }
  }

  lemma MergeInit(tracks: seq<seq<Msg>>)
    requires NonEmptyTracks(tracks)
    ensures MergeInv(tracks, seq(|tracks|, _ => 0), []) && Sum(seq(|tracks|, _ => 0)) == 0
  {
    ZeroSum(|tracks|);
  }

  /** While passes remain, some channel has a message left to emit. */
  lemma MergeLeft(tracks: seq<seq<Msg>>, inds: seq<nat>, total: int) returns (t: nat)
    requires |inds| == |tracks| && forall u :: 0 <= u < |tracks| ==> inds[u] < |tracks[u]|
    requires total == Sum(Steps(tracks)) && Sum(inds) < total
    ensures t < |tracks| && inds[t] < |tracks[t]| - 1 && NextTime(tracks, inds, t).Some?
  {
    SumBelow(inds, Steps(tracks));
    t :| 0 <= t < |tracks| && inds[t] < Steps(tracks)[t];
  }

  /** Everything one pass of the merge does to the ghost state. */
  lemma MergeAdvance(tracks: seq<seq<Msg>>, inds: seq<nat>, emitted: seq<Stamp>, xs: seq<Option<nat>>, ind: nat,
                     tpb: nat, k: nat) returns (st: Stamp)
    requires MergeInv(tracks, inds, emitted) && tpb > 0 && k > 0
    requires |xs| == |tracks| && forall t :: 0 <= t < |xs| ==> xs[t] == NextTime(tracks, inds, t)
    requires ind < |xs| && xs[ind].Some?
    requires forall j :: 0 <= j < |xs| && xs[j].Some? ==> xs[ind].value <= xs[j].value
    requires forall j :: 0 <= j < ind && xs[j].Some? ==> xs[ind].value < xs[j].value
    ensures ind < |inds| && inds[ind] < |tracks[ind]| - 1 && st == Head(tracks, ind, inds[ind])
    ensures PrevAbs(emitted, |emitted|) <= st.abs
    ensures MergeInv(tracks, inds[ind := inds[ind] + 1], emitted + [st])
    ensures Sum(inds[ind := inds[ind] + 1]) == Sum(inds) + 1
    ensures AbsSorted(emitted + [st]) && PrevAbs(emitted + [st], |emitted| + 1) == st.abs
    ensures EmitNotes(emitted + [st], tpb, k) == EmitNotes(emitted, tpb, k)
      + if IsNoteMsg(st.msg) then [Emit(st.msg, st.abs - PrevAbs(emitted, |emitted|), tpb, k)] else []
  {
    MergeStep(tracks, inds, emitted, xs, ind);
    st := Head(tracks, ind, inds[ind]);
    StrictToAbs(emitted + [st]);
    EmitNotesSnoc(emitted, st, tpb, k);
    SumBump(inds, ind);
  }

  /** After all passes every channel is at its last message and the emitted
      messages are the merge order. */
  lemma MergeDone(tracks: seq<seq<Msg>>, inds: seq<nat>, emitted: seq<Stamp>)
    requires MergeInv(tracks, inds, emitted) && Sum(inds) == Sum(Steps(tracks))
    ensures emitted == MergeOrder(tracks)
  {
    SumBelow(inds, Steps(tracks));
    MergeOrderShape(tracks);
    StrictlySortedUnique(emitted, MergeOrder(tracks));
  }

  /** _addChannel for every track, in order: one fresh Channel per track. */
  method NewChannels(tracks: seq<seq<Msg>>) returns (cs: seq<Channel>)
    requires NonEmptyTracks(tracks)
    ensures |cs| == |tracks|
    ensures forall a, b :: 0 <= a < b < |cs| ==> cs[a] != cs[b]
    ensures forall c :: 0 <= c < |cs| ==> fresh(cs[c]) && cs[c].data == tracks[c] && cs[c].Valid() && cs[c].curInd == 0
  {
    cs := [];
    for t := 0 to |tracks|
      invariant |cs| == t
      invariant forall a, b :: 0 <= a < b < |cs| ==> cs[a] != cs[b]
      invariant forall c :: 0 <= c < |cs| ==> fresh(cs[c]) && cs[c].data == tracks[c] && cs[c].Valid() && cs[c].curInd == 0
    {
      var ch := new Channel(tracks[t]);
      cs := cs + [ch];
    }
  }

  lemma ZeroSum(n: nat)
    ensures Sum(seq(n, _ => 0)) == 0
  {
    if n > 0 {
      assert seq(n, _ => 0)[..n - 1] == seq(n - 1, _ => 0);
      ZeroSum(n - 1);
    }
  }
}
