/** decimal_encoders.py: the On/Off encoder. Each relative note becomes its note
    code (150 + pitch for note_on, the pitch otherwise) followed by a wait code
    299 + time when its time is positive; the stream is then cut into segments
    that end at a wait code, and each segment is replaced by the sorted list of
    its distinct codes. */
module DecimalEncoders {
  import opened Base
  import opened MidiParser

  /** The DecimalEncoderOnOff object: only the parsed pieces it was built from. */
  datatype OnOffEncoder = OnOffEncoder(parsedMidis: seq<seq<RelNote>>)

  /** The constructor's check `type(parsedMidis[0][0]) == RelativeNote`. Every note
      of the model is a RelativeNote, so it fails exactly when that index does not
      exist. */
  function NewOnOffEncoder(parsedMidis: seq<seq<RelNote>>): (r: Option<OnOffEncoder>)
    ensures r.Some? <==> |parsedMidis| > 0 && |parsedMidis[0]| > 0
    ensures r.Some? ==> r.value.parsedMidis == parsedMidis
  {
    if |parsedMidis| > 0 && |parsedMidis[0]| > 0 then Some(OnOffEncoder(parsedMidis)) else None
  }

  // ---------------------------------------------------------------------------
  // _encodeOne before ordering

  function NoteCode(n: RelNote): int {
    if n.kind == NoteOn then NoteOnOffset + n.pitch else n.pitch
  }

  /** What _encodeOne appends for one note. */
  function NoteCodes(n: RelNote): seq<int> {
    [NoteCode(n)] + (if n.time > 0 then [WaitOffset + n.time] else [])
  }

  function RawCodes(piece: seq<RelNote>): seq<int> {
    if piece == [] then [] else RawCodes(piece[..|piece| - 1]) + NoteCodes(piece[|piece| - 1])
  }

  /** Sum of the positive relative times of a piece. */
  function PositiveTime(piece: seq<RelNote>): int {
    if piece == [] then 0
    else PositiveTime(piece[..|piece| - 1]) + (if piece[|piece| - 1].time > 0 then piece[|piece| - 1].time else 0)
  }

  ghost predicate PitchesInRange(piece: seq<RelNote>) {
    forall i :: 0 <= i < |piece| ==> MinNote <= piece[i].pitch <= MaxNote
  }

  /** With pitches in 0..127 every note code lies below 300, so the wait codes of
      the raw stream carry exactly the piece's positive time. */
  lemma {:induction false} RawCodesTotalWait(piece: seq<RelNote>)
    requires PitchesInRange(piece)
    ensures TotalWait(RawCodes(piece)) == PositiveTime(piece)
  {
    if piece != [] {
      var init, n := piece[..|piece| - 1], piece[|piece| - 1];
      RawCodesTotalWait(init);
      TotalWaitAppend(RawCodes(init), NoteCodes(n));
      if n.time > 0 {
        assert NoteCodes(n) == [NoteCode(n)] + [WaitOffset + n.time];
        TotalWaitAppend([NoteCode(n)], [WaitOffset + n.time]);
        assert TotalWait([NoteCode(n)]) == TotalWait([]) + 0;
        assert TotalWait([WaitOffset + n.time]) == TotalWait([]) + n.time;
      } else {
        assert TotalWait([NoteCode(n)]) == TotalWait([]) + 0;
      }
    }
  }

  /** With pitches in 0..127 the non-wait codes of the raw stream are the note
      codes of the piece, one per note, in order. */
  lemma {:induction false} RawCodesNotes(piece: seq<RelNote>)
    requires PitchesInRange(piece)
    ensures Filter(RawCodes(piece), IsNoteCode) == Map(piece, NoteCode)
  {
    if piece != [] {
      var init, n := piece[..|piece| - 1], piece[|piece| - 1];
      assert piece == init + [n];
      RawCodesNotes(init);
      FilterAppend(RawCodes(init), NoteCodes(n), IsNoteCode);
      NoteCodesNotes(n);
      MapAppend(init, [n], NoteCode);
    }
  }

  /** The one note code among the codes of a note. */
  lemma NoteCodesNotes(n: RelNote)
    requires MinNote <= n.pitch <= MaxNote
    ensures Filter(NoteCodes(n), IsNoteCode) == [NoteCode(n)]
  {
    if n.time > 0 {
      FilterAppend([NoteCode(n)], [WaitOffset + n.time], IsNoteCode);
    }
    assert Filter([NoteCode(n)], IsNoteCode) == [NoteCode(n)];
  }

  // ---------------------------------------------------------------------------
  // _order: per segment, sorted(list(set(segment)))

  ghost predicate StrictlyIncreasing(s: seq<int>) {
    forall i, j :: 0 <= i < j < |s| ==> s[i] < s[j]
  }

  /** Two sequences hold the same values. */
  ghost predicate SameValues(a: seq<int>, b: seq<int>) {
    forall y :: y in a <==> y in b
  }

  /** x put into its place in r, unless r already holds it. */
  function InsertDistinct(x: int, r: seq<int>): seq<int> {
    if r == [] then [x]
    else if x < r[0] then [x] + r
    else if x == r[0] then r
    else [r[0]] + InsertDistinct(x, r[1..])
  }

  lemma {:induction false} InsertDistinctValues(x: int, r: seq<int>)
    ensures forall y :: y in InsertDistinct(x, r) <==> y in r || y == x
  {
    if r != [] && x > r[0] {
      InsertDistinctValues(x, r[1..]);
      assert r == [r[0]] + r[1..];
    }
  }

  lemma {:induction false} InsertDistinctIncreasing(x: int, r: seq<int>)
    requires StrictlyIncreasing(r)
    ensures StrictlyIncreasing(InsertDistinct(x, r))
  {
    if r != [] && x > r[0] {
      var u := InsertDistinct(x, r[1..]);
      InsertDistinctIncreasing(x, r[1..]);
      InsertDistinctValues(x, r[1..]);
      forall j | 0 <= j < |u| ensures r[0] < u[j] {
        assert u[j] in u;
      }
    }
  }

  /** sorted(list(set(s))): the distinct values of s in increasing order. */
  function SortedDistinct(s: seq<int>): seq<int> {
    if s == [] then [] else InsertDistinct(s[|s| - 1], SortedDistinct(s[..|s| - 1]))
  }

  lemma {:induction false} SortedDistinctSpec(s: seq<int>)
    ensures StrictlyIncreasing(SortedDistinct(s))
    ensures SameValues(SortedDistinct(s), s)
  {
    if s != [] {
      var init := s[..|s| - 1];
      SortedDistinctSpec(init);
      InsertDistinctIncreasing(s[|s| - 1], SortedDistinct(init));
      InsertDistinctValues(s[|s| - 1], SortedDistinct(init));
      assert s == init + [s[|s| - 1]];
      assert forall y :: y in s <==> y in init || y == s[|s| - 1];
    }
  }

  /** Two increasing sequences with the same values are equal. */
  lemma {:induction false} StrictlyIncreasingUnique(a: seq<int>, b: seq<int>)
    requires StrictlyIncreasing(a) && StrictlyIncreasing(b)
    requires SameValues(a, b)
    ensures a == b
    decreases |a|
  {
    assert a != [] ==> a[0] in a;
    assert b != [] ==> b[0] in b;
    if a != [] && b != [] {
      assert a[0] in b && b[0] in a;
      assert a[0] == b[0] by {
        var i :| 0 <= i < |b| && b[i] == a[0];
        var j :| 0 <= j < |a| && a[j] == b[0];
        assert b[0] <= a[0] && a[0] <= b[0];
      }
      forall y ensures y in a[1..] <==> y in b[1..] {
        if y in a[1..] {
          var i :| 1 <= i < |a| && a[i] == y;
          assert y in b;
          assert y != b[0];
        }
        if y in b[1..] {
          var i :| 1 <= i < |b| && b[i] == y;
          assert y in a;
          assert y != a[0];
        }
      }
      StrictlyIncreasingUnique(a[1..], b[1..]);
      assert a == [a[0]] + a[1..] && b == [b[0]] + b[1..];
    }
  }

  lemma SortedDistinctOfIncreasing(s: seq<int>)
    requires StrictlyIncreasing(s)
    ensures SortedDistinct(s) == s
  {
    SortedDistinctSpec(s);
    StrictlyIncreasingUnique(SortedDistinct(s), s);
  }

  /** Index of the first wait code at or after p, or |s| when there is none. */
  function NextWait(s: seq<int>, p: nat): (j: nat)
    requires p <= |s|
    ensures p <= j <= |s|
    decreases |s| - p
  {
    if p == |s| || s[p] >= TimeUnitStart then p else NextWait(s, p + 1)
  }

  /** NextWait finds the first wait code: none before it, one at it. */
  lemma {:induction false} NextWaitSpec(s: seq<int>, p: nat)
    requires p <= |s|
    ensures forall i :: p <= i < NextWait(s, p) ==> s[i] < TimeUnitStart
    ensures NextWait(s, p) < |s| ==> s[NextWait(s, p)] >= TimeUnitStart
    decreases |s| - p
  {
    if p < |s| && s[p] < TimeUnitStart {
      NextWaitSpec(s, p + 1);
    }
  }

  /** Any index with no wait code before it and one at it is NextWait's. */
  lemma {:induction false} NextWaitAt(s: seq<int>, p: nat, j: nat)
    requires p <= j <= |s|
    requires forall i :: p <= i < j ==> s[i] < TimeUnitStart
    requires j < |s| ==> s[j] >= TimeUnitStart
    ensures NextWait(s, p) == j
    decreases j - p
  {
    if p < j {
      NextWaitAt(s, p + 1, j);
    }
  }

  /** Where the segment that starts at p ends: just after its wait code, or at
      the end of s. */
  function SegmentEnd(s: seq<int>, p: nat): (e: nat)
    requires p < |s|
    ensures p < e <= |s|
  {
    if NextWait(s, p) < |s| then NextWait(s, p) + 1 else |s|
  }

  /** The result of _order on the codes from p on. */
  function OrderFrom(s: seq<int>, p: nat): seq<int>
    decreases |s| - p
  {
    if p >= |s| then [] else SortedDistinct(s[p..SegmentEnd(s, p)]) + OrderFrom(s, SegmentEnd(s, p))
  }

  /** The result of _order. */
  function OrderSpec(s: seq<int>): seq<int> {
    OrderFrom(s, 0)
  }

  /** Appending a segment and then the rest is appending their sum. */
  lemma AppendSegment(ordered: seq<int>, sorted: seq<int>, rest: seq<int>, whole: seq<int>)
    requires whole == sorted + rest
    ensures (ordered + sorted) + rest == ordered + whole
  {
  }

  /** _order: segment after segment, the sorted distinct codes of each. */
  method Order(oneEncoded: seq<int>) returns (ordered: seq<int>)
    ensures ordered == OrderSpec(oneEncoded)
  {
    var pointer := 0;
    ordered := [];
    while pointer < |oneEncoded|
      invariant 0 <= pointer <= |oneEncoded| + 1
      invariant ordered + OrderFrom(oneEncoded, pointer) == OrderSpec(oneEncoded)
      decreases |oneEncoded| + 1 - pointer
    {
      ordered, pointer := OrderNextSegment(oneEncoded, pointer, ordered);
    }
  }

  /** One round of _order's outer loop: the segment from `pointer` is
      gathered, sorted without repeats and appended; `pointer` moves past it. */
  method OrderNextSegment(s: seq<int>, pointer: nat, ordered: seq<int>) returns (ordered': seq<int>, pointer': nat)
    requires pointer < |s|
    ensures pointer < pointer' <= |s| + 1
    ensures ordered' + OrderFrom(s, pointer') == ordered + OrderFrom(s, pointer)
  {
    var curStream, stop := CollectSegment(s, pointer);
    var sorted := SortedDistinct(curStream);
    ordered' := ordered + sorted;
    pointer' := stop + 1;
    var e := SegmentEnd(s, pointer);
    assert OrderFrom(s, pointer') == OrderFrom(s, e);
    AppendSegment(ordered, sorted, OrderFrom(s, e), OrderFrom(s, pointer));
  }

  /** The inner loop of _order: gathers the codes from `start` up to and including
      the next wait code; `pointer` is left on that wait code, or at the end. */
  method CollectSegment(s: seq<int>, start: nat) returns (curStream: seq<int>, pointer: nat)
    requires start < |s|
    ensures pointer == NextWait(s, start)
    ensures curStream == s[start..SegmentEnd(s, start)]
  {
    pointer := start;
    curStream := [];
    while pointer < |s| && s[pointer] < TimeUnitStart
      invariant start <= pointer <= |s|
      invariant curStream == s[start..pointer]
      invariant forall i :: start <= i < pointer ==> s[i] < TimeUnitStart
    {
      curStream := curStream + [s[pointer]];
      pointer := pointer + 1;
    }
    NextWaitAt(s, start, pointer);
    if pointer < |s| {
      curStream := curStream + [s[pointer]];
      assert curStream == s[start..pointer + 1];
    }
  }

  /** _encodeOne: the raw codes of the piece, then ordered. */
  method EncodeOne(piece: seq<RelNote>) returns (encoded: seq<int>)
    ensures encoded == OrderSpec(RawCodes(piece))
  {
    var oneEncoded := [];
    for i := 0 to |piece|
      invariant oneEncoded == RawCodes(piece[..i])
    {
      var note := piece[i];
      if note.kind == NoteOn {
        oneEncoded := oneEncoded + [NoteOnOffset + note.pitch];
      } else {
        oneEncoded := oneEncoded + [note.pitch];
      }
      if note.time > 0 {
        oneEncoded := oneEncoded + [WaitOffset + note.time];
      }
      assert piece[..i + 1][..i] == piece[..i];
    }
    assert piece[..|piece|] == piece;
    encoded := Order(oneEncoded);
  }

  /** encode(): one encoding per parsed piece, in the same order. */
  method Encode(encoder: OnOffEncoder) returns (encoded: seq<seq<int>>)
    ensures |encoded| == |encoder.parsedMidis|
    ensures forall i :: 0 <= i < |encoded| ==> encoded[i] == OrderSpec(RawCodes(encoder.parsedMidis[i]))
  {
    encoded := [];
    for i := 0 to |encoder.parsedMidis|
      invariant |encoded| == i
      invariant forall j :: 0 <= j < i ==> encoded[j] == OrderSpec(RawCodes(encoder.parsedMidis[j]))
    {
      var one := EncodeOne(encoder.parsedMidis[i]);
      encoded := encoded + [one];
    }
  }

  // ---------------------------------------------------------------------------
  // Properties of _order

  lemma FilterNoWaits(s: seq<int>)
    requires forall i :: 0 <= i < |s| ==> s[i] < TimeUnitStart
    ensures Filter(s, IsWait) == []
  {
    if s != [] {
      FilterNoWaits(s[1..]);
    }
  }

  /** The largest value of an increasing sequence is its last element. */
  lemma LastIsMax(sd: seq<int>, m: int)
    requires StrictlyIncreasing(sd) && m in sd
    requires forall i :: 0 <= i < |sd| ==> sd[i] <= m
    ensures sd[|sd| - 1] == m
  {
    var k :| 0 <= k < |sd| && sd[k] == m;
    assert sd[|sd| - 1] <= m;
  }

  /** The sorted segment that starts at p: note codes only, then the segment's
      wait code last when the segment has one. */
  lemma SegmentShape(s: seq<int>, p: nat)
    requires p < |s|
    ensures var sd := SortedDistinct(s[p..SegmentEnd(s, p)]);
      if NextWait(s, p) < |s| then
        sd != [] && sd[|sd| - 1] == s[NextWait(s, p)] >= TimeUnitStart
        && forall i :: 0 <= i < |sd| - 1 ==> sd[i] < TimeUnitStart
      else
        forall i :: 0 <= i < |sd| ==> sd[i] < TimeUnitStart
  {
    var w := NextWait(s, p);
    var seg := s[p..SegmentEnd(s, p)];
    var sd := SortedDistinct(seg);
    NextWaitSpec(s, p);
    SortedDistinctSpec(seg);
    assert forall j :: 0 <= j < w - p ==> seg[j] == s[p + j];
    if w < |s| {
      var m := s[w];
      assert seg[|seg| - 1] == m;
      forall i | 0 <= i < |sd| ensures sd[i] <= m {
        assert sd[i] in seg;
      }
      assert m in sd;
      LastIsMax(sd, m);
      forall i | 0 <= i < |sd| - 1 ensures sd[i] < TimeUnitStart {
        assert sd[i] in seg;
        var j :| 0 <= j < |seg| && seg[j] == sd[i];
        assert sd[i] < m;
      }
    } else {
      forall i | 0 <= i < |sd| ensures sd[i] < TimeUnitStart {
        assert sd[i] in seg;
      }
    }
  }

  /** Sorting a segment keeps its wait codes. */
  lemma SegmentWaits(s: seq<int>, p: nat)
    requires p < |s|
    ensures var seg := s[p..SegmentEnd(s, p)];
      Filter(SortedDistinct(seg), IsWait) == Filter(seg, IsWait)
  {
    var w := NextWait(s, p);
    var seg := s[p..SegmentEnd(s, p)];
    var sd := SortedDistinct(seg);
    NextWaitSpec(s, p);
    SegmentShape(s, p);
    if w < |s| {
      var m := s[w];
      assert seg == s[p..w] + [m];
      FilterNoWaits(s[p..w]);
      FilterSnoc(s[p..w], m, IsWait);
      assert sd == sd[..|sd| - 1] + [m];
      FilterNoWaits(sd[..|sd| - 1]);
      FilterSnoc(sd[..|sd| - 1], m, IsWait);
    } else {
      forall i | 0 <= i < |seg| ensures seg[i] < TimeUnitStart {
        assert seg[i] == s[p + i];
      }
      FilterNoWaits(seg);
      assert w == |s|;
      assert forall i :: 0 <= i < |sd| ==> sd[i] < TimeUnitStart;
      FilterNoWaits(sd);
    }
  }

  lemma {:induction false} OrderFromKeepsWaits(s: seq<int>, p: nat)
    requires p <= |s|
    ensures Filter(OrderFrom(s, p), IsWait) == Filter(s[p..], IsWait)
    decreases |s| - p
  {
    if p < |s| {
      var e := SegmentEnd(s, p);
      OrderFromKeepsWaits(s, e);
      SegmentWaits(s, p);
      FilterAppend(SortedDistinct(s[p..e]), OrderFrom(s, e), IsWait);
      assert s[p..] == s[p..e] + s[e..];
      FilterAppend(s[p..e], s[e..], IsWait);
    }
  }

  /** _order keeps every wait code, in the same relative order. */
  lemma OrderKeepsWaits(s: seq<int>)
    ensures Filter(OrderSpec(s), IsWait) == Filter(s, IsWait)
  {
    OrderFromKeepsWaits(s, 0);
    assert s[0..] == s;
  }

  /** Every note code of the ordered stream is smaller than the code after it:
      each segment is increasing and ends at its wait code. */
  ghost predicate NotesIncreasing(r: seq<int>) {
    forall i :: 0 <= i < |r| - 1 && r[i] < TimeUnitStart ==> r[i] < r[i + 1]
  }

  lemma {:induction false} OrderFromNotesIncreasing(s: seq<int>, p: nat)
    ensures NotesIncreasing(OrderFrom(s, p))
    decreases |s| - p
  {
    if p < |s| {
      var e := SegmentEnd(s, p);
      var a, b := SortedDistinct(s[p..e]), OrderFrom(s, e);
      OrderFromNotesIncreasing(s, e);
      SegmentShape(s, p);
      SortedDistinctSpec(s[p..e]);
      if NextWait(s, p) == |s| {
        assert b == [];
      }
      var r := a + b;
      forall i | 0 <= i < |r| - 1 && r[i] < TimeUnitStart ensures r[i] < r[i + 1] {
        if i >= |a| {
          assert r[i] == b[i - |a|] && r[i + 1] == b[i - |a| + 1];
        } else if i < |a| - 1 {
          assert r[i] == a[i] && r[i + 1] == a[i + 1];
        }
      }
      assert OrderFrom(s, p) == r;
    }
  }

  lemma OrderNotesIncreasing(s: seq<int>)
    ensures NotesIncreasing(OrderSpec(s))
  {
    OrderFromNotesIncreasing(s, 0);
  }

  /** Whatever comes before it, an ordered stream falls into the segments it
      was made of, and each of them is already sorted without repeats. */
  lemma {:induction false} OrderFromOrdered(s: seq<int>, p: nat, pre: seq<int>)
    requires p <= |s|
    ensures OrderFrom(pre + OrderFrom(s, p), |pre|) == OrderFrom(s, p)
    decreases |s| - p
  {
    var t := pre + OrderFrom(s, p);
    if p < |s| {
      var e := SegmentEnd(s, p);
      var seg := s[p..e];
      var sd, x := SortedDistinct(seg), OrderFrom(s, e);
      var q := |pre|;
      assert t == (pre + sd) + x;
      SortedDistinctSpec(seg);
      assert seg[0] in sd;
      SegmentShape(s, p);
      forall i | q <= i < q + |sd| ensures t[i] == sd[i - q] {
      }
      if NextWait(s, p) < |s| {
        NextWaitAt(t, q, q + |sd| - 1);
      } else {
        assert x == [];
        NextWaitAt(t, q, q + |sd|);
      }
      assert SegmentEnd(t, q) == q + |sd|;
      assert t[q..q + |sd|] == sd;
      SortedDistinctOfIncreasing(sd);
      OrderFromOrdered(s, e, pre + sd);
    } else {
      assert t == pre;
    }
  }

  /** Ordering an ordered stream changes nothing. */
  lemma OrderIdempotent(s: seq<int>)
    ensures OrderSpec(OrderSpec(s)) == OrderSpec(s)
  {
    OrderFromOrdered(s, 0, []);
    assert [] + OrderSpec(s) == OrderSpec(s);
  }
}
