/** pieces.py: turning an encoded piece back into messages. A Piece stores its
    On/Off code list with repeated note codes removed; a MultiNet piece is first
    laid out on a grid of time slots and collapsed into On/Off codes; saving maps
    code bands back to note_on/note_off messages whose delta comes from the wait
    code just before them. */
module Pieces {
  import opened Base

  // ---------------------------------------------------------------------------
  // Runs of note codes and _removeDup

  /** Start of the run of note codes (codes below 300) that ends just before i. */
  function RunStart(s: seq<int>, i: nat): (r: nat)
    requires i <= |s|
    ensures r <= i
    ensures forall j :: r <= j < i ==> s[j] < TimeUnitStart
    ensures r == 0 || s[r - 1] >= TimeUnitStart
  {
    if i == 0 || s[i - 1] >= TimeUnitStart then i else RunStart(s, i - 1)
  }

  lemma RunStartAt(s: seq<int>, i: nat, m: nat)
    requires m <= i <= |s|
    requires forall j :: m <= j < i ==> s[j] < TimeUnitStart
    requires m == 0 || s[m - 1] >= TimeUnitStart
    ensures RunStart(s, i) == m
  {
  }

  /** s[i] repeats a code of the run of note codes just before it. */
  predicate DupInRun(s: seq<int>, i: nat)
    requires i < |s|
  {
    s[i] in s[RunStart(s, i)..i]
  }

  /** The run before i depends only on s[..i]. */
  lemma {:induction false} RunStartPrefix(s: seq<int>, t: seq<int>, i: nat)
    requires i <= |s| && i <= |t| && s[..i] == t[..i]
    ensures RunStart(s, i) == RunStart(t, i)
  {
    if i > 0 {
      assert s[i - 1] == s[..i][i - 1] && t[i - 1] == t[..i][i - 1];
      if s[i - 1] < TimeUnitStart {
        assert s[..i - 1] == s[..i][..i - 1] && t[..i - 1] == t[..i][..i - 1];
        RunStartPrefix(s, t, i - 1);
      }
    }
  }

  /** Whether s[i] is a dup depends only on s[..i+1]. */
  lemma DupInRunPrefix(s: seq<int>, t: seq<int>, i: nat)
    requires i < |s| && i < |t| && s[..i + 1] == t[..i + 1]
    ensures RunStart(s, i) == RunStart(t, i)
    ensures DupInRun(s, i) == DupInRun(t, i)
  {
    assert s[..i] == s[..i + 1][..i] && t[..i] == t[..i + 1][..i];
    RunStartPrefix(s, t, i);
    var r := RunStart(s, i);
    assert s[r..i] == s[..i][r..] && t[r..i] == t[..i][r..];
    assert s[i] == s[..i + 1][i] && t[i] == t[..i + 1][i];
  }

  /** The list _removeDup returns when its enumeration is at index i: a note code
      that repeats a code of its run is deleted, and the index moves on either way. */
  function RemoveDupFrom(piece: seq<int>, i: nat): seq<int>
    decreases |piece| - i
  {
    if i >= |piece| then piece
    else if piece[i] < TimeUnitStart && DupInRun(piece, i) then RemoveDupFrom(Delete(piece, i), i + 1)
    else RemoveDupFrom(piece, i + 1)
  }

  /** _removeDup, as written: enumerate over the live list, scan back through
      the run for an equal code, and delete the current entry when one is found. */
  method RemoveDup(piece0: seq<int>) returns (piece: seq<int>)
    ensures piece == RemoveDupFrom(piece0, 0)
  {
    piece := piece0;
    var i := 0;
    while i < |piece|
      invariant RemoveDupFrom(piece, i) == RemoveDupFrom(piece0, 0)
      decreases |piece| - i
    {
      var note := piece[i];
      if note < TimeUnitStart {
        var back := 1;
        var found := false;
        while !found && i - back >= 0 && piece[i - back] < TimeUnitStart
          invariant 1 <= back <= i + 1
          invariant forall j :: i - back < j < i ==> piece[j] < TimeUnitStart && piece[j] != note
          invariant found ==> back <= i && piece[i - back] == note && piece[i - back] < TimeUnitStart
        {
          if note == piece[i - back] {
            found := true;
          } else {
            back := back + 1;
          }
        }
        if found {
          ghost var rs := RunStart(piece, i);
          assert piece[rs..i][i - back - rs] == note;
          piece := Delete(piece, i);
        } else {
          RunStartAt(piece, i, i - back + 1);
        }
      }
      i := i + 1;
    }
  }

  /** No note code repeats a code of the run of note codes before it. */
  ghost predicate NoRunDups(s: seq<int>) {
    forall b :: 0 <= b < |s| && s[b] < TimeUnitStart ==> !DupInRun(s, b)
  }

  /** The repair: after a deletion the next entry has moved into place i, so the
      index must not advance. */
  function RemoveDupFixedFrom(piece: seq<int>, i: nat): seq<int>
    requires i <= |piece|
    decreases |piece| - i
  {
    if i == |piece| then piece
    else if piece[i] < TimeUnitStart && DupInRun(piece, i) then RemoveDupFixedFrom(Delete(piece, i), i)
    else RemoveDupFixedFrom(piece, i + 1)
  }

  function RemoveDupFixed(piece: seq<int>): seq<int> {
    RemoveDupFixedFrom(piece, 0)
  }

  lemma DeleteNoRunDupsBelow(s: seq<int>, i: nat)
    requires i < |s|
    requires forall b :: 0 <= b < i && s[b] < TimeUnitStart ==> !DupInRun(s, b)
    ensures var t := Delete(s, i);
      forall b :: 0 <= b < i && t[b] < TimeUnitStart ==> !DupInRun(t, b)
  {
    var t := Delete(s, i);
    forall b | 0 <= b < i && t[b] < TimeUnitStart ensures !DupInRun(t, b) {
      assert s[..b + 1] == t[..b + 1];
      DupInRunPrefix(s, t, b);
    }
  }

  lemma {:induction false} RemoveDupFixedFromNoRunDups(piece: seq<int>, i: nat)
    requires i <= |piece|
    requires forall b :: 0 <= b < i && piece[b] < TimeUnitStart ==> !DupInRun(piece, b)
    ensures NoRunDups(RemoveDupFixedFrom(piece, i))
    decreases |piece| - i
  {
    if i < |piece| {
      if piece[i] < TimeUnitStart && DupInRun(piece, i) {
        DeleteNoRunDupsBelow(piece, i);
        RemoveDupFixedFromNoRunDups(Delete(piece, i), i);
      } else {
        RemoveDupFixedFromNoRunDups(piece, i + 1);
      }
    }
  }

  /** The repaired removal leaves no note code repeated within its run. */
  lemma RemoveDupFixedNoRunDups(piece: seq<int>)
    ensures NoRunDups(RemoveDupFixed(piece))
  {
    RemoveDupFixedFromNoRunDups(piece, 0);
  }

  /** As written, three equal note codes in one run keep two of them: the second
      is deleted and the third moves into its place, which is then skipped. */
  lemma RemoveDupMissesRepeat()
    ensures RemoveDupFrom([210, 210, 210], 0) == [210, 210]
    ensures !NoRunDups(RemoveDupFrom([210, 210, 210], 0))
    ensures RemoveDupFixed([210, 210, 210]) == [210]
  {
    var s := [210, 210, 210];
    assert RunStart(s, 0) == 0;
    assert !DupInRun(s, 0);
    assert RunStart(s, 1) == 0;
    assert DupInRun(s, 1);
    var t := Delete(s, 1);
    assert t == [210, 210];
    assert RemoveDupFrom(t, 2) == t;
    assert RunStart(t, 1) == 0;
    assert DupInRun(t, 1);
    var u := Delete(t, 1);
    assert u == [210];
    assert RemoveDupFixedFrom(s, 1) == RemoveDupFixedFrom(t, 1);
    assert RemoveDupFixedFrom(t, 1) == RemoveDupFixedFrom(u, 1);
  }

  /** Removing repeats never touches a wait code: the waits are kept, in order. */
  lemma {:induction false} RemoveDupKeepsWaits(piece: seq<int>, i: nat)
    ensures Filter(RemoveDupFrom(piece, i), IsWait) == Filter(piece, IsWait)
    decreases |piece| - i
  {
    if i < |piece| {
      if piece[i] < TimeUnitStart && DupInRun(piece, i) {
        FilterDelete(piece, i, IsWait);
        RemoveDupKeepsWaits(Delete(piece, i), i + 1);
      } else {
        RemoveDupKeepsWaits(piece, i + 1);
      }
    }
  }

  /** Deleting a note code that repeats one of its run keeps every value. */
  lemma DeleteDupKeepsValues(piece: seq<int>, i: nat)
    requires i < |piece| && DupInRun(piece, i)
    ensures forall x :: x in Delete(piece, i) <==> x in piece
  {
    var rs := RunStart(piece, i);
    var k :| 0 <= k < i - rs && piece[rs..i][k] == piece[i];
    assert piece[i] == piece[..i][rs + k];
    assert piece == piece[..i] + [piece[i]] + piece[i + 1..];
    assert Delete(piece, i) == piece[..i] + piece[i + 1..];
  }

  /** Every value of the piece survives: a deleted code still has its earlier copy. */
  lemma {:induction false} RemoveDupKeepsValues(piece: seq<int>, i: nat)
    ensures forall x :: x in RemoveDupFrom(piece, i) <==> x in piece
    decreases |piece| - i
  {
    if i < |piece| {
      if piece[i] < TimeUnitStart && DupInRun(piece, i) {
        RemoveDupKeepsValues(Delete(piece, i), i + 1);
        DeleteDupKeepsValues(piece, i);
      } else {
        RemoveDupKeepsValues(piece, i + 1);
      }
    }
  }

  /** Position q of s was taken out as a repeat within its run: its code is a
      note code, and an earlier kept entry of s holds the same code with only
      note codes between them. */
  ghost predicate KeptRunDup(s: seq<int>, f: seq<int>, q: int)
    requires 0 <= q < |s|
  {
    && s[q] < TimeUnitStart
    && exists j :: 0 <= j < |f| && 0 <= f[j] < q && s[f[j]] == s[q]
         && forall m :: f[j] < m < q ==> s[m] < TimeUnitStart
  }

  /** Every position of s that f does not keep was taken out as a repeat. */
  ghost predicate RemovedOnlyRunDups(s: seq<int>, f: seq<int>) {
    forall q :: 0 <= q < |s| && q !in f ==> KeptRunDup(s, f, q)
  }

  /** The entry deleted at i repeats a code of its run, which is kept. */
  lemma RunDupKeptAt(s: seq<int>, f: seq<int>, i: nat)
    requires i < |s| && s[i] < TimeUnitStart && DupInRun(s, i)
    requires i <= |f| && forall j :: 0 <= j < i && j < |f| ==> f[j] == j
    ensures KeptRunDup(s, f, i)
  {
    var rs := RunStart(s, i);
    var k :| 0 <= k < i - rs && s[rs..i][k] == s[i];
    assert f[rs + k] == rs + k && s[rs + k] == s[i];
  }

  /** A repeat taken out of Delete(s, i) at q' was one in s at q' + 1. */
  lemma RunDupLift(s: seq<int>, i: nat, g: seq<int>, q': nat)
    requires i < |s| && s[i] < TimeUnitStart
    requires forall j :: 0 <= j < |g| ==> 0 <= g[j] < |s| - 1
    requires i <= q' < |s| - 1 && KeptRunDup(Delete(s, i), g, q')
    ensures KeptRunDup(s, Compose(Skip(|s|, i), g), q' + 1)
  {
    var t := Delete(s, i);
    var j :| 0 <= j < |g| && 0 <= g[j] < q' && t[g[j]] == t[q']
      && forall m :: g[j] < m < q' ==> t[m] < TimeUnitStart;
    var a := g[j];
    var b := if a < i then a else a + 1;
    assert Compose(Skip(|s|, i), g)[j] == b;
    if a < i {
      assert t[a] == t[..i][a];
    }
    assert s[b] == t[a] && s[q' + 1] == t[q'];
    forall m | b < m < q' + 1 ensures s[m] < TimeUnitStart {
      if m < i {
        assert t[m] == t[..i][m];
      } else if m > i {
        assert t[m - 1] == s[m];
      }
    }
  }

  /** The positions f keeps of s: kept in order, those before i among them, and
      each one taken out, at i or later, a repeat within its run. */
  ghost predicate RunDupTrace(f: seq<int>, r: seq<int>, s: seq<int>, i: nat) {
    && Embeds(f, r, s)
    && (if i <= |s| then i else |s|) <= |f|
    && (forall j :: 0 <= j < i && j < |f| ==> f[j] == j)
    && (forall q :: 0 <= q < |s| && q !in f ==> i <= q && KeptRunDup(s, f, q))
  }

  /** Deleting the repeat at i and tracing the rest from i (repaired) or i + 1
      (as written) traces the whole enumeration from i. */
  lemma RemoveDupDeleteStep(s: seq<int>, i: nat, g: seq<int>, r: seq<int>, next: nat)
    requires i < |s| && s[i] < TimeUnitStart && DupInRun(s, i)
    requires next == i || next == i + 1
    requires RunDupTrace(g, r, Delete(s, i), next)
    ensures RunDupTrace(Compose(Skip(|s|, i), g), r, s, i)
  {
    var t, d := Delete(s, i), Skip(|s|, i);
    DeleteEmbeds(s, i);
    EmbedsCompose(g, d, r, t, s);
    RunDupDeletedKept(s, i, g, next);
  }

  /** The positions taken out by that step and by the rest of the trace. */
  lemma RunDupDeletedKept(s: seq<int>, i: nat, g: seq<int>, next: nat)
    requires i < |s| && s[i] < TimeUnitStart && DupInRun(s, i)
    requires next == i || next == i + 1
    requires forall j :: 0 <= j < |g| ==> 0 <= g[j] < |s| - 1
    requires (if next <= |s| - 1 then next else |s| - 1) <= |g|
    requires forall j :: 0 <= j < next && j < |g| ==> g[j] == j
    requires forall q :: 0 <= q < |s| - 1 && q !in g ==> next <= q && KeptRunDup(Delete(s, i), g, q)
    ensures var f := Compose(Skip(|s|, i), g);
      && (if i <= |s| then i else |s|) <= |f|
      && (forall j :: 0 <= j < i && j < |f| ==> f[j] == j)
      && (forall q :: 0 <= q < |s| && q !in f ==> i <= q && KeptRunDup(s, f, q))
  {
    var f := Compose(Skip(|s|, i), g);
    forall q | 0 <= q < i ensures q in f {
      assert f[q] == q;
    }
    forall q | 0 <= q < |s| && q !in f ensures i <= q && KeptRunDup(s, f, q) {
      if q == i {
        RunDupKeptAt(s, f, i);
      } else {
        ComposeSkipMissing(g, |s|, i, q);
        RunDupLift(s, i, g, q - 1);
      }
    }
  }

  /** Past the end nothing is taken out. */
  lemma RunDupTraceDone(s: seq<int>, i: nat)
    requires |s| <= i
    ensures RunDupTrace(Identity(|s|), s, s, i)
  {
    var f := Identity(|s|);
    EmbedsIdentity(s);
    forall q | 0 <= q < |s| ensures q in f {
      assert f[q] == q;
    }
  }

  /** Keeping the entry at i extends a trace from i + 1 to one from i. */
  lemma RunDupTraceKeep(f: seq<int>, r: seq<int>, s: seq<int>, i: nat)
    requires i < |s| && RunDupTrace(f, r, s, i + 1)
    ensures RunDupTrace(f, r, s, i)
  {
  }

  /** What the enumeration from index i does to s, tracked position by
      position. */
  lemma {:induction false} RemoveDupTrace(s: seq<int>, i: nat) returns (f: seq<int>)
    ensures RunDupTrace(f, RemoveDupFrom(s, i), s, i)
    decreases |s| - i
  {
    if i >= |s| {
      f := Identity(|s|);
      RunDupTraceDone(s, i);
    } else if s[i] < TimeUnitStart && DupInRun(s, i) {
      var t := Delete(s, i);
      var g := RemoveDupTrace(t, i + 1);
      RemoveDupDeleteStep(s, i, g, RemoveDupFrom(t, i + 1), i + 1);
      f := Compose(Skip(|s|, i), g);
      RemoveDupFromDelete(s, i);
    } else {
      f := RemoveDupTrace(s, i + 1);
      RunDupTraceKeep(f, RemoveDupFrom(s, i + 1), s, i);
      RemoveDupFromKeep(s, i);
    }
  }

  lemma RemoveDupFromDelete(s: seq<int>, i: nat)
    requires i < |s| && s[i] < TimeUnitStart && DupInRun(s, i)
    ensures RemoveDupFrom(s, i) == RemoveDupFrom(Delete(s, i), i + 1)
  {
  }

  lemma RemoveDupFromKeep(s: seq<int>, i: nat)
    requires i < |s| && !(s[i] < TimeUnitStart && DupInRun(s, i))
    ensures RemoveDupFrom(s, i) == RemoveDupFrom(s, i + 1)
  {
  }

  /** The same for the repaired enumeration. */
  lemma {:induction false} RemoveDupFixedTrace(s: seq<int>, i: nat) returns (f: seq<int>)
    requires i <= |s|
    ensures RunDupTrace(f, RemoveDupFixedFrom(s, i), s, i)
    decreases |s| - i
  {
    if i == |s| {
      f := Identity(|s|);
      RunDupTraceDone(s, i);
    } else if s[i] < TimeUnitStart && DupInRun(s, i) {
      var g := RemoveDupFixedTrace(Delete(s, i), i);
      RemoveDupDeleteStep(s, i, g, RemoveDupFixedFrom(s, i), i);
      f := Compose(Skip(|s|, i), g);
    } else {
      f := RemoveDupFixedTrace(s, i + 1);
      RunDupTraceKeep(f, RemoveDupFixedFrom(s, i), s, i);
    }
  }

  /** _removeDup, as written and repaired, only takes entries out: the result is
      a subsequence of the piece, and each note code taken out repeats a kept
      code earlier in its run. */
  lemma RemoveDupSubseq(piece: seq<int>)
    ensures IsSubseq(RemoveDupFrom(piece, 0), piece)
    ensures exists f :: Embeds(f, RemoveDupFrom(piece, 0), piece) && RemovedOnlyRunDups(piece, f)
    ensures IsSubseq(RemoveDupFixed(piece), piece)
    ensures exists f :: Embeds(f, RemoveDupFixed(piece), piece) && RemovedOnlyRunDups(piece, f)
  {
    var f := RemoveDupTrace(piece, 0);
    var g := RemoveDupFixedTrace(piece, 0);
    assert Embeds(f, RemoveDupFrom(piece, 0), piece) && RemovedOnlyRunDups(piece, f);
    assert Embeds(g, RemoveDupFixed(piece), piece) && RemovedOnlyRunDups(piece, g);
  }

  // ---------------------------------------------------------------------------
  // MultiNetPiece: the time-slot grid

  /** A MultiNet entry: (pitch, held duration) or (300, wait). */
  type Pair = (int, nat)

  predicate IsNotePair(p: Pair) {
    p.0 != TimeUnitStart
  }

  /** The slot the next entry starts at: the waits of the 300 entries so far. */
  function Cursor(pairs: seq<Pair>): nat {
    if pairs == [] then 0
    else Cursor(pairs[..|pairs| - 1]) + (if IsNotePair(pairs[|pairs| - 1]) then 0 else pairs[|pairs| - 1].1)
  }

  /** The grid after the first |pairs| entries, or None once a note-off slot is
      past the end of the grid (IndexError). */
  function Grid(pairs: seq<Pair>, total: nat): (r: Option<seq<seq<int>>>)
    ensures r.Some? ==> |r.value| == total
  {
    if pairs == [] then Some(seq(total, _ => []))
    else
      match Grid(pairs[..|pairs| - 1], total)
      case None => None
      case Some(g) =>
        var (evt, t) := pairs[|pairs| - 1];
        var cur := Cursor(pairs[..|pairs| - 1]);
        if !IsNotePair((evt, t)) then Some(g)
        else if cur + t >= total then None
        else
          var g1 := g[cur := g[cur] + [NoteOnOffset + evt]];
          Some(g1[cur + t := g1[cur + t] + [evt]])
  }

  /** _calcNoteOnNoteOffs over a preallocated array of slots. */
  method CalcNoteOnNoteOffs(pairs: seq<Pair>, totalTimeUnits: nat) returns (r: Option<seq<seq<int>>>)
    ensures r == Grid(pairs, totalTimeUnits)
  {
    var notesByTimeUnit := new seq<int>[totalTimeUnits](_ => []);
    var currentTimeUnit := 0;
    assert notesByTimeUnit[..] == seq(totalTimeUnits, _ => []);
    for i := 0 to |pairs|
      invariant currentTimeUnit == Cursor(pairs[..i])
      invariant Grid(pairs[..i], totalTimeUnits) == Some(notesByTimeUnit[..])
    {
      assert pairs[..i + 1][..i] == pairs[..i];
      var (evt, t) := pairs[i];
      if !IsNotePair((evt, t)) {
        currentTimeUnit := currentTimeUnit + t;
      } else {
        if currentTimeUnit + t >= totalTimeUnits {
          GridNoneStays(pairs, i + 1, totalTimeUnits);
          return None;
        }
        notesByTimeUnit[currentTimeUnit] := notesByTimeUnit[currentTimeUnit] + [NoteOnOffset + evt];
        notesByTimeUnit[currentTimeUnit + t] := notesByTimeUnit[currentTimeUnit + t] + [evt];
      }
    }
    assert pairs[..|pairs|] == pairs;
    return Some(notesByTimeUnit[..]);
  }

  lemma {:induction false} GridNoneStays(pairs: seq<Pair>, n: nat, total: nat)
    requires n <= |pairs| && Grid(pairs[..n], total).None?
    ensures Grid(pairs, total).None?
    decreases |pairs| - n
  {
    if n < |pairs| {
      assert pairs[..n + 1][..n] == pairs[..n];
      GridNoneStays(pairs, n + 1, total);
    } else {
      assert pairs[..n] == pairs;
    }
  }

  /** Every note entry ends inside the grid. */
  ghost predicate Fits(pairs: seq<Pair>, total: nat) {
    forall j :: 0 <= j < |pairs| && IsNotePair(pairs[j]) ==> Cursor(pairs[..j]) + pairs[j].1 < total
  }

  /** The grid is built exactly when every note-off slot lies inside it. */
  lemma {:induction false} GridFits(pairs: seq<Pair>, total: nat)
    ensures Grid(pairs, total).Some? <==> Fits(pairs, total)
  {
    if pairs != [] {
      var init := pairs[..|pairs| - 1];
      GridFits(init, total);
      assert forall j :: 0 <= j < |init| ==> pairs[..j] == init[..j] && pairs[j] == init[j];
      assert pairs[..|pairs| - 1] == init;
    }
  }

  /** Every note entry is placed: 150 + pitch in its start slot, and the pitch in
      the slot its duration later. */
  lemma {:induction false} GridPlaces(pairs: seq<Pair>, total: nat)
    requires Grid(pairs, total).Some?
    ensures var g := Grid(pairs, total).value;
      forall j :: 0 <= j < |pairs| && IsNotePair(pairs[j]) ==>
        Cursor(pairs[..j]) + pairs[j].1 < |g|
        && NoteOnOffset + pairs[j].0 in g[Cursor(pairs[..j])]
        && pairs[j].0 in g[Cursor(pairs[..j]) + pairs[j].1]
  {
    if pairs != [] {
      var init := pairs[..|pairs| - 1];
      GridGrows(pairs, total);
      GridPlaces(init, total);
      assert forall j :: 0 <= j < |init| ==> pairs[..j] == init[..j] && pairs[j] == init[j];
    }
  }

  /** One pair more keeps every entry already placed, and places the new one. */
  lemma GridGrows(pairs: seq<Pair>, total: nat)
    requires pairs != [] && Grid(pairs, total).Some?
    ensures var init, last := pairs[..|pairs| - 1], pairs[|pairs| - 1];
      var g, h := Grid(init, total), Grid(pairs, total).value;
      && g.Some?
      && (forall i, x :: 0 <= i < total && x in g.value[i] ==> x in h[i])
      && (IsNotePair(last) ==>
            Cursor(init) + last.1 < total
            && NoteOnOffset + last.0 in h[Cursor(init)] && last.0 in h[Cursor(init) + last.1])
  {
    var init, last := pairs[..|pairs| - 1], pairs[|pairs| - 1];
    var g := Grid(init, total).value;
    var cur := Cursor(init);
    if IsNotePair(last) {
      var g1 := g[cur := g[cur] + [NoteOnOffset + last.0]];
      var h := g1[cur + last.1 := g1[cur + last.1] + [last.0]];
      assert Grid(pairs, total).value == h;
      forall i, x | 0 <= i < total && x in g[i]
        ensures x in h[i]
      {
        assert x in g1[i];
      }
    }
  }

  ghost function CountNotes(pairs: seq<Pair>): nat {
    |Filter(pairs, IsNotePair)|
  }

  lemma ConcatUpdateAppend(g: seq<seq<int>>, c: nat, x: int)
    requires c < |g|
    ensures |Concat(g[c := g[c] + [x]])| == |Concat(g)| + 1
    decreases |g|
  {
    var h := g[c := g[c] + [x]];
    if c < |g| - 1 {
      assert h[..|h| - 1] == g[..|g| - 1][c := g[c] + [x]];
      ConcatUpdateAppend(g[..|g| - 1], c, x);
    } else {
      assert h[..|h| - 1] == g[..|g| - 1];
    }
  }

  lemma ConcatEmpty(n: nat)
    ensures Concat(seq<seq<int>>(n, _ => [])) == []
  {
    if n > 0 {
      assert seq<seq<int>>(n, _ => [])[..n - 1] == seq<seq<int>>(n - 1, _ => []);
      ConcatEmpty(n - 1);
    }
  }

  /** The grid holds two entries per note entry, and nothing else. */
  lemma {:induction false} GridSize(pairs: seq<Pair>, total: nat)
    requires Grid(pairs, total).Some?
    ensures |Concat(Grid(pairs, total).value)| == 2 * CountNotes(pairs)
  {
    if pairs == [] {
      ConcatEmpty(total);
    } else {
      var init, x := pairs[..|pairs| - 1], pairs[|pairs| - 1];
      assert pairs == init + [x];
      FilterSnoc(init, x, IsNotePair);
      GridSize(init, total);
      var g := Grid(init, total).value;
      if IsNotePair(x) {
        var cur := Cursor(init);
        var g1 := g[cur := g[cur] + [NoteOnOffset + x.0]];
        ConcatUpdateAppend(g, cur, NoteOnOffset + x.0);
        ConcatUpdateAppend(g1, cur + x.1, x.0);
      }
    }
  }

  lemma {:induction false} CursorMonotone(pairs: seq<Pair>, j: nat)
    requires j <= |pairs|
    ensures Cursor(pairs[..j]) <= Cursor(pairs)
    decreases |pairs| - j
  {
    if j < |pairs| {
      var init := pairs[..|pairs| - 1];
      assert pairs[..j] == init[..j];
      CursorMonotone(init, j);
    } else {
      assert pairs[..j] == pairs;
    }
  }

  /** The extra 100 slots of convertToOnOff: note entries of duration below 100
      always fit. */
  lemma ShortNotesFit(pairs: seq<Pair>)
    requires forall j :: 0 <= j < |pairs| && IsNotePair(pairs[j]) ==> pairs[j].1 < 100
    ensures Fits(pairs, Cursor(pairs) + 100)
  {
    forall j | 0 <= j < |pairs| && IsNotePair(pairs[j])
      ensures Cursor(pairs[..j]) + pairs[j].1 < Cursor(pairs) + 100
    {
      CursorMonotone(pairs, j);
    }
  }

  // ---------------------------------------------------------------------------
  // _collapseTimeUnits

  /** The codes _collapseTimeUnits has produced after the first |slots| slots. */
  function Collapse(slots: seq<seq<int>>): seq<int> {
    if slots == [] then []
    else
      var out := Collapse(slots[..|slots| - 1]);
      var slot := slots[|slots| - 1];
      if |slot| == 0 && |out| > 0 then out[|out| - 1 := out[|out| - 1] + 1]
      else out + slot + [TimeUnitStart]
  }

  method CollapseTimeUnits(notesByTimeUnit: seq<seq<int>>) returns (convertedPiece: seq<int>)
    ensures convertedPiece == Collapse(notesByTimeUnit)
  {
    convertedPiece := [];
    for i := 0 to |notesByTimeUnit|
      invariant convertedPiece == Collapse(notesByTimeUnit[..i])
    {
      assert notesByTimeUnit[..i + 1][..i] == notesByTimeUnit[..i];
      var timeUnit := notesByTimeUnit[i];
      if |timeUnit| == 0 && |convertedPiece| > 0 {
        convertedPiece := convertedPiece[|convertedPiece| - 1 := convertedPiece[|convertedPiece| - 1] + 1];
      } else {
        ghost var before := convertedPiece;
        for j := 0 to |timeUnit|
          invariant convertedPiece == before + timeUnit[..j]
        {
          convertedPiece := convertedPiece + [timeUnit[j]];
        }
        assert timeUnit[..|timeUnit|] == timeUnit;
        convertedPiece := convertedPiece + [TimeUnitStart];
      }
    }
    assert notesByTimeUnit[..|notesByTimeUnit|] == notesByTimeUnit;
  }

  ghost predicate OnlyNoteCodes(slots: seq<seq<int>>) {
    forall i, j :: 0 <= i < |slots| && 0 <= j < |slots[i]| ==> slots[i][j] < TimeUnitStart
  }

  /** No two wait codes are adjacent. */
  ghost predicate WaitsApart(s: seq<int>) {
    forall i :: 0 <= i < |s| - 1 && s[i] >= TimeUnitStart ==> s[i + 1] < TimeUnitStart
  }

  /** With note codes in the slots, the result is empty only for no slots, ends
      with a wait code, and never has two wait codes side by side. */
  lemma {:induction false} CollapseShape(slots: seq<seq<int>>)
    requires OnlyNoteCodes(slots)
    ensures var out := Collapse(slots);
      (out == [] <==> slots == [])
      && (out != [] ==> out[|out| - 1] >= TimeUnitStart)
      && WaitsApart(out)
  {
    if slots != [] {
      var init := slots[..|slots| - 1];
      var slot := slots[|slots| - 1];
      assert OnlyNoteCodes(init);
      CollapseShape(init);
      var out := Collapse(init);
      if !(|slot| == 0 && |out| > 0) {
        var r := out + slot + [TimeUnitStart];
        forall i | 0 <= i < |r| - 1 && r[i] >= TimeUnitStart ensures r[i + 1] < TimeUnitStart {
          if i < |out| - 1 {
            assert r[i] == out[i] && r[i + 1] == out[i + 1];
          } else if i == |out| - 1 {
            assert |slot| > 0;
            assert r[i + 1] == slot[0];
          }
        }
      }
    }
  }

  lemma TotalWaitBumpLast(s: seq<int>)
    requires s != [] && s[|s| - 1] >= TimeUnitStart
    ensures TotalWait(s[|s| - 1 := s[|s| - 1] + 1]) == TotalWait(s) + 1
  {
    var u := s[|s| - 1 := s[|s| - 1] + 1];
    assert u[..|u| - 1] == s[..|s| - 1];
  }

  lemma TotalWaitNotes(s: seq<int>)
    requires forall i :: 0 <= i < |s| ==> s[i] < TimeUnitStart
    ensures TotalWait(s) == 0
  {
    if s != [] {
      TotalWaitNotes(s[..|s| - 1]);
    }
  }

  /** Each slot is worth one time unit of waiting. */
  lemma {:induction false} CollapseTotalWait(slots: seq<seq<int>>)
    requires OnlyNoteCodes(slots)
    ensures TotalWait(Collapse(slots)) == |slots|
  {
    if slots != [] {
      var init := slots[..|slots| - 1];
      var slot := slots[|slots| - 1];
      assert OnlyNoteCodes(init);
      CollapseTotalWait(init);
      CollapseShape(init);
      var out := Collapse(init);
      if |slot| == 0 && |out| > 0 {
        TotalWaitBumpLast(out);
      } else {
        TotalWaitAppend(out + slot, [TimeUnitStart]);
        TotalWaitAppend(out, slot);
        TotalWaitNotes(slot);
        assert TotalWait([TimeUnitStart]) == TotalWait([]) + 1;
      }
    }
  }

  lemma FilterNotes(s: seq<int>)
    requires forall i :: 0 <= i < |s| ==> s[i] < TimeUnitStart
    ensures Filter(s, IsNoteCode) == s
  {
    if s != [] {
      FilterNotes(s[1..]);
      assert s == [s[0]] + s[1..];
    }
  }

  lemma FilterBumpLast(s: seq<int>)
    requires s != [] && s[|s| - 1] >= TimeUnitStart
    ensures Filter(s[|s| - 1 := s[|s| - 1] + 1], IsNoteCode) == Filter(s, IsNoteCode)
  {
    var u := s[|s| - 1 := s[|s| - 1] + 1];
    var init := s[..|s| - 1];
    assert s == init + [s[|s| - 1]] && u == init + [u[|u| - 1]];
    FilterSnoc(init, s[|s| - 1], IsNoteCode);
    FilterSnoc(init, u[|u| - 1], IsNoteCode);
  }

  /** The note codes of the result are the slot contents, slot after slot. */
  lemma {:induction false} CollapseContents(slots: seq<seq<int>>)
    requires OnlyNoteCodes(slots)
    ensures Filter(Collapse(slots), IsNoteCode) == Concat(slots)
  {
    if slots != [] {
      var init := slots[..|slots| - 1];
      var slot := slots[|slots| - 1];
      assert OnlyNoteCodes(init);
      CollapseContents(init);
      CollapseShape(init);
      var out := Collapse(init);
      if |slot| == 0 && |out| > 0 {
        FilterBumpLast(out);
        assert Concat(slots) == Concat(init) + [];
      } else {
        FilterAppend(out + slot, [TimeUnitStart], IsNoteCode);
        FilterAppend(out, slot, IsNoteCode);
        FilterNotes(slot);
        assert Filter([TimeUnitStart], IsNoteCode) == [];
      }
    }
  }

  // ---------------------------------------------------------------------------
  // MultiNetPiece.convertToOnOff

  /** convertToOnOff: a grid of (waits + 100) slots, collapsed; None on IndexError. */
  function MultiNetCodes(pairs: seq<Pair>): Option<seq<int>> {
    match Grid(pairs, Cursor(pairs) + 100)
    case None => None
    case Some(g) => Some(Collapse(g))
  }

  method ConvertMultiNet(pairs: seq<Pair>) returns (r: Option<seq<int>>)
    ensures r == MultiNetCodes(pairs)
  {
    var totalTimeUnits := Cursor(pairs) + 100;
    var notesByTimeUnit := CalcNoteOnNoteOffs(pairs, totalTimeUnits);
    if notesByTimeUnit.None? {
      return None;
    }
    var convertedPiece := CollapseTimeUnits(notesByTimeUnit.value);
    return Some(convertedPiece);
  }

  lemma GridNoteCodes(pairs: seq<Pair>, total: nat)
    requires Grid(pairs, total).Some?
    requires forall j :: 0 <= j < |pairs| && IsNotePair(pairs[j]) ==> 0 <= pairs[j].0 < NoteOnOffset
    ensures OnlyNoteCodes(Grid(pairs, total).value)
  {
    if pairs != [] {
      GridNoteCodes(pairs[..|pairs| - 1], total);
    }
  }

  /** With pitches in 0..149 and durations below 100 the conversion succeeds; its
      waits add up to the grid size and it holds two note codes per note entry. */
  lemma MultiNetCodesShape(pairs: seq<Pair>)
    requires forall j :: 0 <= j < |pairs| && IsNotePair(pairs[j]) ==> 0 <= pairs[j].0 < NoteOnOffset && pairs[j].1 < 100
    ensures MultiNetCodes(pairs).Some?
    ensures var out := MultiNetCodes(pairs).value;
      out != [] && out[|out| - 1] >= TimeUnitStart && WaitsApart(out)
      && TotalWait(out) == Cursor(pairs) + 100
      && |Filter(out, IsNoteCode)| == 2 * CountNotes(pairs)
  {
    var total := Cursor(pairs) + 100;
    ShortNotesFit(pairs);
    GridFits(pairs, total);
    var g := Grid(pairs, total).value;
    GridNoteCodes(pairs, total);
    CollapseShape(g);
    CollapseTotalWait(g);
    CollapseContents(g);
    GridSize(pairs, total);
  }

  // ---------------------------------------------------------------------------
  // Piece.save and _addMessage

  /** A message written by save: note_on or note_off, velocity 127, delta in ticks. */
  datatype Event = Event(kind: Kind, note: int, velocity: int, time: nat)

  const SaveVelocity := 127

  /** _addMessage: the band of the code decides the message. */
  function AddMessage(dt: nat, code: int): (r: Option<Event>)
    ensures r.None? <==> code >= TimeUnitStart
    ensures code < NoteOnOffset ==> r == Some(Event(NoteOff, code, SaveVelocity, dt))
    ensures NoteOnOffset <= code < TimeUnitStart ==> r == Some(Event(NoteOn, code - NoteOnOffset, SaveVelocity, dt))
  {
    if code < NoteOnOffset then Some(Event(NoteOff, code, SaveVelocity, dt))
    else if code < TimeUnitStart then Some(Event(NoteOn, code - NoteOnOffset, SaveVelocity, dt))
    else None
  }

  /** Ticks of a wait of `units` time units of 1/k of a whole note. */
  function WaitTicks(units: nat, tpb: nat, k: nat): nat
    requires k > 0
  {
    units * 4 * tpb / k
  }

  /** The delta save gives message i: the wait of the code before it, if any. */
  function SaveDelta(piece: seq<int>, i: nat, tpb: nat, k: nat): (dt: nat)
    requires i < |piece| && k > 0
    ensures i == 0 || piece[i - 1] < TimeUnitStart ==> dt == 0
    ensures i > 0 && piece[i - 1] >= TimeUnitStart ==> dt == WaitTicks(piece[i - 1] - WaitOffset, tpb, k)
    ensures i > 0 && piece[i - 1] >= TimeUnitStart ==>
      dt * k <= (piece[i - 1] - WaitOffset) * 4 * tpb < (dt + 1) * k
  {
    if i > 0 && piece[i - 1] > TimeUnitStart - 1 then WaitTicks(piece[i - 1] - WaitOffset, tpb, k) else 0
  }

  /** The messages save appends for the first n codes. */
  function SaveTrack(piece: seq<int>, n: nat, tpb: nat, k: nat): seq<Event>
    requires n <= |piece| && k > 0
  {
    if n == 0 then []
    else
      var m := AddMessage(SaveDelta(piece, n - 1, tpb, k), piece[n - 1]);
      SaveTrack(piece, n - 1, tpb, k) + (if m.Some? then [m.value] else [])
  }

  class Piece {
    /** smallestTimeUnit is 1/k of a whole note. */
    const k: nat
    var piece: seq<int>

    /** OnOffPiece: convertToOnOff is the identity, then repeats are removed. */
    constructor OnOff(piece: seq<int>, k: nat)
      requires k > 0
      ensures this.piece == RemoveDupFrom(piece, 0) && this.k == k
    {
      var p := RemoveDup(piece);
      this.k := k;
      this.piece := p;
    }

    /** MultiNetPiece: the pairs are laid out on the grid, collapsed, and repeats
        removed. The source raises IndexError when a note-off slot is past the
        grid; the constructor is only defined when it is not. */
    constructor MultiNet(pairs: seq<Pair>, k: nat)
      requires k > 0 && MultiNetCodes(pairs).Some?
      ensures this.piece == RemoveDupFrom(MultiNetCodes(pairs).value, 0) && this.k == k
    {
      var converted := ConvertMultiNet(pairs);
      var p := RemoveDup(converted.value);
      this.k := k;
      this.piece := p;
    }

    /** The message list of save (the file itself is not modelled). */
    method Save(tpb: nat) returns (track: seq<Event>)
      requires k > 0
      ensures track == SaveTrack(piece, |piece|, tpb, k)
    {
      track := [];
      for i := 0 to |piece|
        invariant track == SaveTrack(piece, i, tpb, k)
      {
        var dt := 0;
        if i > 0 && piece[i - 1] > TimeUnitStart - 1 {
          dt := (piece[i - 1] - (TimeUnitStart - 1)) * 4 * tpb / k;
        }
        var m := AddMessage(dt, piece[i]);
        if m.Some? {
          track := track + [m.value];
        }
      }
    }
  }
}
