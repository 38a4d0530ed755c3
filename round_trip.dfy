/** The way back: a piece of relative notes encoded by DecimalEncoderOnOff's
    _encodeOne (before _order) and written out by Piece.save. A relative note's
    time is the wait BEFORE it, but _encodeOne writes that wait AFTER the note,
    and save gives a message the wait of the code before it: every note is
    played with the wait of the note before it. */
module RoundTrip {
  import opened Base
  import opened MidiParser
  import opened DecimalEncoders
  import opened Pieces

  /** The notes a parsed piece holds: note_on/note_off, pitch in 0..127 and a
      non-negative relative time. */
  ghost predicate Playable(piece: seq<RelNote>) {
    forall i :: 0 <= i < |piece| ==>
      piece[i].kind != TimeUnit && MinNote <= piece[i].pitch <= MaxNote && piece[i].time >= 0
  }

  /** The message save writes for note n after a delta of dt ticks. */
  function Written(n: RelNote, dt: nat): Event {
    Event(n.kind, n.pitch, SaveVelocity, dt)
  }

  /** The messages the encoded piece comes back as: note i waits for the time
      of note i - 1. */
  function LateTrack(piece: seq<RelNote>, tpb: nat, k: nat): (r: seq<Event>)
    requires k > 0 && forall i :: 0 <= i < |piece| ==> piece[i].time >= 0
  {
    seq(|piece|, i requires 0 <= i < |piece| => Written(piece[i], LateDelta(piece, i, tpb, k)))
  }

  function LateDelta(piece: seq<RelNote>, i: nat, tpb: nat, k: nat): nat
    requires k > 0 && i < |piece| && (i > 0 ==> piece[i - 1].time >= 0)
  {
    if i == 0 then 0 else WaitTicks(piece[i - 1].time, tpb, k)
  }

  /** The messages that would play the piece as parsed: note i after its own
      relative time. */
  function OwnTrack(piece: seq<RelNote>, tpb: nat, k: nat): (r: seq<Event>)
    requires k > 0 && forall i :: 0 <= i < |piece| ==> piece[i].time >= 0
    ensures |r| == |piece|
    ensures forall i :: 0 <= i < |piece| ==> r[i] == Written(piece[i], WaitTicks(piece[i].time, tpb, k))
  {
    seq(|piece|, i requires 0 <= i < |piece| => Written(piece[i], WaitTicks(piece[i].time, tpb, k)))
  }

  lemma LateTrackSnoc(init: seq<RelNote>, x: RelNote, tpb: nat, k: nat)
    requires k > 0 && x.time >= 0 && forall i :: 0 <= i < |init| ==> init[i].time >= 0
    ensures LateTrack(init + [x], tpb, k)
         == LateTrack(init, tpb, k) + [Written(x, if init == [] then 0 else WaitTicks(init[|init| - 1].time, tpb, k))]
  {
  }

  lemma OwnTrackSnoc(init: seq<RelNote>, x: RelNote, tpb: nat, k: nat)
    requires k > 0 && x.time >= 0 && forall i :: 0 <= i < |init| ==> init[i].time >= 0
    ensures OwnTrack(init + [x], tpb, k) == OwnTrack(init, tpb, k) + [Written(x, WaitTicks(x.time, tpb, k))]
  {
  }

  /** save reads only the codes up to the one it writes. */
  lemma {:induction false} SaveTrackPrefix(s: seq<int>, t: seq<int>, n: nat, tpb: nat, k: nat)
    requires k > 0 && n <= |s| <= |t| && s == t[..|s|]
    ensures SaveTrack(s, n, tpb, k) == SaveTrack(t, n, tpb, k)
  {
    if n > 0 {
      SaveTrackPrefix(s, t, n - 1, tpb, k);
      assert s[n - 1] == t[n - 1];
      assert n - 1 > 0 ==> s[n - 2] == t[n - 2];
    }
  }

  /** A wait code carries no message. */
  lemma SaveTrackWait(s: seq<int>, n: nat, tpb: nat, k: nat)
    requires k > 0 && n < |s| && s[n] >= TimeUnitStart
    ensures SaveTrack(s, n + 1, tpb, k) == SaveTrack(s, n, tpb, k)
  {
  }

  /** The note code of a playable note, and the message save makes of it. */
  lemma SaveNoteCode(s: seq<int>, n: nat, x: RelNote, dt: nat, tpb: nat, k: nat)
    requires k > 0 && n < |s| && s[n] == NoteCode(x) && SaveDelta(s, n, tpb, k) == dt
    requires x.kind != TimeUnit && MinNote <= x.pitch <= MaxNote
    ensures SaveTrack(s, n + 1, tpb, k) == SaveTrack(s, n, tpb, k) + [Written(x, dt)]
  {
  }

  /** The last code _encodeOne has written for a non-empty piece: the wait of
      the last note, or its note code when its time is 0. */
  lemma RawCodesLast(piece: seq<RelNote>)
    requires piece != []
    ensures var c := RawCodes(piece); var x := piece[|piece| - 1];
      c != [] && c[|c| - 1] == if x.time > 0 then WaitOffset + x.time else NoteCode(x)
  {
  }

  /** The wait save reads before the codes that follow `a`. */
  function WaitAfter(a: seq<int>, tpb: nat, k: nat): nat
    requires k > 0
  {
    if a != [] && a[|a| - 1] >= TimeUnitStart then WaitTicks(a[|a| - 1] - WaitOffset, tpb, k) else 0
  }

  /** Decoding the codes _encodeOne appends for one more note. */
  lemma SaveLateStep(a: seq<int>, x: RelNote, tpb: nat, k: nat)
    requires k > 0 && x.kind != TimeUnit && MinNote <= x.pitch <= MaxNote
    ensures var c := a + NoteCodes(x);
      SaveTrack(c, |c|, tpb, k) == SaveTrack(a, |a|, tpb, k) + [Written(x, WaitAfter(a, tpb, k))]
  {
    var c := a + NoteCodes(x);
    SaveTrackPrefix(a, c, |a|, tpb, k);
    assert c[|a|] == NoteCode(x);
    SaveNoteCode(c, |a|, x, WaitAfter(a, tpb, k), tpb, k);
    if x.time > 0 {
      SaveTrackWait(c, |a| + 1, tpb, k);
    }
  }

  /** The wait save reads after the codes of a piece is that of its last note. */
  lemma WaitAfterRawCodes(piece: seq<RelNote>, tpb: nat, k: nat)
    requires k > 0 && piece != []
    requires var x := piece[|piece| - 1]; x.time >= 0 && MinNote <= x.pitch <= MaxNote
    ensures WaitAfter(RawCodes(piece), tpb, k) == WaitTicks(piece[|piece| - 1].time, tpb, k)
  {
    RawCodesLast(piece);
    assert WaitTicks(0, tpb, k) == 0;
  }

  /** As written: decoding the encoded piece plays every note with the wait
      of the note before it, and the first at once. */
  lemma {:induction false} SaveRawCodesLate(piece: seq<RelNote>, tpb: nat, k: nat)
    requires k > 0 && Playable(piece)
    ensures var c := RawCodes(piece);
      SaveTrack(c, |c|, tpb, k) == LateTrack(piece, tpb, k)
  {
    if piece != [] {
      var init, x := piece[..|piece| - 1], piece[|piece| - 1];
      assert piece == init + [x];
      SaveRawCodesLate(init, tpb, k);
      var a := RawCodes(init);
      if init != [] {
        WaitAfterRawCodes(init, tpb, k);
      }
      SaveLateStep(a, x, tpb, k);
      LateTrackSnoc(init, x, tpb, k);
    }
  }

  /** A note that rests before a note_off of its own pitch: the round trip
      turns it into a note of no length. */
  function HeldNote(): seq<RelNote> {
    [RelNote(NoteOn, 0, 60, 100), RelNote(NoteOff, 4, 60, 0)]
  }

  lemma HeldNoteLosesLength()
    ensures var c := RawCodes(HeldNote());
      && c == [210, 60, 303]
      && SaveTrack(c, |c|, 1, 4) == [Event(NoteOn, 60, SaveVelocity, 0), Event(NoteOff, 60, SaveVelocity, 0)]
      && OwnTrack(HeldNote(), 1, 4)[1] == Event(NoteOff, 60, SaveVelocity, 4)
      && SaveTrack(c, |c|, 1, 4) != OwnTrack(HeldNote(), 1, 4)
  {
    var p := HeldNote();
    assert p[..1] == [p[0]];
    assert RawCodes(p[..1]) == [210];
    SaveRawCodesLate(p, 1, 4);
    assert WaitTicks(4, 1, 4) == 4;
  }

  // ---------------------------------------------------------------------------
  // The evidently intended encoding: the wait first, then the note

  function NoteCodesWaitFirst(n: RelNote): seq<int> {
    (if n.time > 0 then [WaitOffset + n.time] else []) + [NoteCode(n)]
  }

  function RawCodesWaitFirst(piece: seq<RelNote>): seq<int> {
    if piece == [] then [] else RawCodesWaitFirst(piece[..|piece| - 1]) + NoteCodesWaitFirst(piece[|piece| - 1])
  }

  /** Decoding the codes of one more note, wait first, after codes that end
      in a note code. */
  lemma SaveWaitFirstStep(a: seq<int>, x: RelNote, tpb: nat, k: nat)
    requires k > 0 && x.kind != TimeUnit && MinNote <= x.pitch <= MaxNote && x.time >= 0
    requires a == [] || IsNoteCode(a[|a| - 1])
    ensures var c := a + NoteCodesWaitFirst(x);
      SaveTrack(c, |c|, tpb, k) == SaveTrack(a, |a|, tpb, k) + [Written(x, WaitTicks(x.time, tpb, k))]
  {
    var c := a + NoteCodesWaitFirst(x);
    SaveTrackPrefix(a, c, |a|, tpb, k);
    if x.time > 0 {
      SaveTrackWait(c, |a|, tpb, k);
      assert c[|a| + 1] == NoteCode(x);
      SaveNoteCode(c, |a| + 1, x, WaitTicks(x.time, tpb, k), tpb, k);
    } else {
      assert c[|a|] == NoteCode(x);
      SaveNoteCode(c, |a|, x, WaitTicks(x.time, tpb, k), tpb, k);
    }
  }

  /** Corrected, decoding the codes gives back every note after its own
      relative time, and the codes end in a note code. */
  lemma {:induction false} SaveWaitFirstRoundTrip(piece: seq<RelNote>, tpb: nat, k: nat)
    requires k > 0 && Playable(piece)
    ensures var c := RawCodesWaitFirst(piece);
      && (c != [] ==> IsNoteCode(c[|c| - 1]))
      && SaveTrack(c, |c|, tpb, k) == OwnTrack(piece, tpb, k)
  {
    if piece != [] {
      var init, x := piece[..|piece| - 1], piece[|piece| - 1];
      assert piece == init + [x];
      SaveWaitFirstRoundTrip(init, tpb, k);
      var a := RawCodesWaitFirst(init);
      SaveWaitFirstStep(a, x, tpb, k);
      OwnTrackSnoc(init, x, tpb, k);
    }
  }
}
