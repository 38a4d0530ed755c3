/** Shared value types of the MIDI pipeline: the messages a MIDI track is made of,
    the kinds of note events, and a few sequence helpers used by every stage. */
module Base {

  datatype Option<T> = None | Some(value: T)

  /** The type string of a note event: "note_on", "note_off" or "time_unit". */
  datatype Kind = NoteOn | NoteOff | TimeUnit

  /** The payload of a mido message, reduced to what the pipeline looks at. */
  datatype Body =
    | NoteOnMsg(note: int, velocity: int)
    | NoteOffMsg(note: int, velocity: int)
    | ProgramChange(program: int)
    | KeySignature(key: string)
    | OtherMsg

  /** A mido message: its delta time in ticks and its payload. */
  datatype Msg = Msg(time: nat, body: Body)

  /** True of note_on and note_off messages (never of meta messages). */
  predicate IsNoteMsg(m: Msg) {
    m.body.NoteOnMsg? || m.body.NoteOffMsg?
  }

  /** The message type of a note message, before any velocity rule is applied. */
  function MsgKind(m: Msg): Kind
    requires IsNoteMsg(m)
  {
    if m.body.NoteOnMsg? then NoteOn else NoteOff
  }

  /** Sum of the delta times of a list of messages. */
  function SumTimes(s: seq<Msg>): nat {
    if s == [] then 0 else SumTimes(s[..|s| - 1]) + s[|s| - 1].time
  }

  lemma {:induction false} SumTimesMonotone(s: seq<Msg>, i: nat, j: nat)
    requires i <= j <= |s|
    ensures SumTimes(s[..i]) <= SumTimes(s[..j])
    decreases j - i
  {
    if i < j {
      assert s[..j][..j - 1] == s[..j - 1];
      SumTimesMonotone(s, i, j - 1);
    }
  }

  function Sum(s: seq<int>): int {
    if s == [] then 0 else Sum(s[..|s| - 1]) + s[|s| - 1]
  }

  function Filter<T>(s: seq<T>, p: T -> bool): (r: seq<T>)
    ensures |r| <= |s|
  {
    if s == [] then []
    else (if p(s[0]) then [s[0]] else []) + Filter(s[1..], p)
  }

  /** The filtered sequence holds exactly the elements of s that satisfy p. */
  lemma {:induction false} FilterMembers<T>(s: seq<T>, p: T -> bool)
    ensures forall i :: 0 <= i < |Filter(s, p)| ==> Filter(s, p)[i] in s && p(Filter(s, p)[i])
    ensures forall i :: 0 <= i < |s| && p(s[i]) ==> s[i] in Filter(s, p)
  {
    if s != [] {
      FilterMembers(s[1..], p);
      var head: seq<T> := if p(s[0]) then [s[0]] else [];
      assert Filter(s, p) == head + Filter(s[1..], p);
      forall i | 0 <= i < |s| && p(s[i]) ensures s[i] in Filter(s, p) {
        if i > 0 { assert s[i] == s[1..][i - 1]; }
      }
    }
  }

  lemma {:induction false} FilterAppend<T>(a: seq<T>, b: seq<T>, p: T -> bool)
    ensures Filter(a + b, p) == Filter(a, p) + Filter(b, p)
    decreases |a|
  {
    if a == [] {
      assert a + b == b;
    } else {
      var head := if p(a[0]) then [a[0]] else [];
      assert (a + b)[0] == a[0] && (a + b)[1..] == a[1..] + b;
      FilterAppend(a[1..], b, p);
      assert Filter(a + b, p) == head + Filter(a[1..] + b, p);
      assert Filter(a, p) == head + Filter(a[1..], p);
    }
  }

  lemma FilterSnoc<T>(s: seq<T>, x: T, p: T -> bool)
    ensures Filter(s + [x], p) == Filter(s, p) + (if p(x) then [x] else [])
  {
    FilterAppend(s, [x], p);
    assert [x][1..] == [];
  }

  function Map<T, U>(s: seq<T>, f: T -> U): (r: seq<U>)
    ensures |r| == |s|
    ensures forall i :: 0 <= i < |s| ==> r[i] == f(s[i])
  {
    if s == [] then [] else [f(s[0])] + Map(s[1..], f)
  }

  lemma MapAppend<T, U>(a: seq<T>, b: seq<T>, f: T -> U)
    ensures Map(a + b, f) == Map(a, f) + Map(b, f)
  {
  }

  /** list.remove of the entry at index i. */
  function Delete<T>(s: seq<T>, i: nat): (r: seq<T>)
    requires i < |s|
    ensures |r| == |s| - 1
    ensures r[..i] == s[..i]
    ensures forall j :: i <= j < |r| ==> r[j] == s[j + 1]
  {
    s[..i] + s[i + 1..]
  }

  /** f lists, in increasing order, the positions of b that a keeps: a is b with
      the entries at the other positions taken out. */
  ghost predicate Embeds<T>(f: seq<int>, a: seq<T>, b: seq<T>) {
    && |f| == |a|
    && (forall j :: 0 <= j < |f| ==> 0 <= f[j] < |b| && a[j] == b[f[j]])
    && (forall j, l :: 0 <= j < l < |f| ==> f[j] < f[l])
  }

  /** a is a subsequence of b: entries taken out, none added or reordered. */
  ghost predicate IsSubseq<T>(a: seq<T>, b: seq<T>) {
    exists f :: Embeds(f, a, b)
  }

  /** The positions Delete(s, i) keeps, for a list of length n. */
  function Skip(n: nat, i: nat): (r: seq<int>)
    requires i < n
    ensures |r| == n - 1
    ensures forall j :: 0 <= j < i ==> r[j] == j
    ensures forall j :: i <= j < n - 1 ==> r[j] == j + 1
  {
    seq(n - 1, j => if j < i then j else j + 1)
  }

  function Identity(n: nat): (r: seq<int>)
    ensures |r| == n && forall j :: 0 <= j < n ==> r[j] == j
  {
    seq(n, j => j)
  }

  /** Positions of c, read through the positions of b that f names. */
  function Compose(g: seq<int>, f: seq<int>): (r: seq<int>)
    requires forall j :: 0 <= j < |f| ==> 0 <= f[j] < |g|
    ensures |r| == |f| && forall j :: 0 <= j < |f| ==> r[j] == g[f[j]]
  {
    seq(|f|, j requires 0 <= j < |f| => g[f[j]])
  }

  lemma EmbedsIdentity<T>(s: seq<T>)
    ensures Embeds(Identity(|s|), s, s)
  {
  }

  /** Delete takes out exactly the entry at i. */
  lemma DeleteEmbeds<T>(s: seq<T>, i: nat)
    requires i < |s|
    ensures Embeds(Skip(|s|, i), Delete(s, i), s)
  {
    var r, d := Delete(s, i), Skip(|s|, i);
    forall j | 0 <= j < i ensures r[j] == s[j] {
      assert r[j] == r[..i][j];
    }
  }

  /** Taking entries out twice is taking them out once. */
  lemma EmbedsCompose<T>(f: seq<int>, g: seq<int>, a: seq<T>, b: seq<T>, c: seq<T>)
    requires Embeds(f, a, b) && Embeds(g, b, c)
    ensures Embeds(Compose(g, f), a, c)
  {
  }

  /** An entry Delete(s, i) keeps, at position x of s, is gone from a later
      removal f of Delete(s, i) only if its new position x' is. */
  lemma ComposeSkipMissing(f: seq<int>, n: nat, i: nat, x: int)
    requires i < n && forall j :: 0 <= j < |f| ==> 0 <= f[j] < n - 1
    requires 0 <= x < n && x != i && x !in Compose(Skip(n, i), f)
    ensures (if x < i then x else x - 1) !in f
  {
    var x' := if x < i then x else x - 1;
    forall j | 0 <= j < |f| ensures f[j] != x' {
      assert Compose(Skip(n, i), f)[j] != x;
    }
  }

  /** Position i of s is not kept after Delete(s, i), nor is any other
      position whose new place x' a later removal g of Delete(s, i) drops. */
  lemma ComposeSkipDrops(g: seq<int>, n: nat, i: nat, x: int)
    requires i < n && forall j :: 0 <= j < |g| ==> 0 <= g[j] < n - 1
    requires 0 <= x < n && (x == i || (if x < i then x else x - 1) !in g)
    ensures x !in Compose(Skip(n, i), g)
  {
    var f := Compose(Skip(n, i), g);
    forall j | 0 <= j < |f| ensures f[j] != x {
      assert f[j] == Skip(n, i)[g[j]];
    }
  }

  /** Positions strictly between two kept-apart places stay taken out when
      the positions are read back through Delete(s, i). */
  lemma ComposeSkipBetween(g: seq<int>, n: nat, i: nat, p': int, q': int)
    requires i < n && forall j :: 0 <= j < |g| ==> 0 <= g[j] < n - 1
    requires 0 <= p' < n - 1 && i <= q' < n - 1
    requires forall m :: (p' < m < q' || q' < m < p') ==> m !in g
    ensures var p := if p' < i then p' else p' + 1;
      forall m :: (p < m < q' + 1 || q' + 1 < m < p) ==> m !in Compose(Skip(n, i), g)
  {
    var p := if p' < i then p' else p' + 1;
    forall m | p < m < q' + 1 || q' + 1 < m < p ensures m !in Compose(Skip(n, i), g) {
      if m != i {
        var m' := if m < i then m else m - 1;
        assert p' < m' < q' || q' < m' < p';
      }
      ComposeSkipDrops(g, n, i, m);
    }
  }

  /** A subsequence of a subsequence is a subsequence. */
  lemma SubseqOf<T>(f: seq<int>, a: seq<T>, b: seq<T>)
    requires Embeds(f, a, b)
    ensures IsSubseq(a, b)
  {
  }

  /** Deleting an entry the filter drops leaves the filtered list alone. */
  lemma FilterDelete<T>(s: seq<T>, i: nat, p: T -> bool)
    requires i < |s| && !p(s[i])
    ensures Filter(Delete(s, i), p) == Filter(s, p)
  {
    var a, b := s[..i], s[i + 1..];
    var c := [s[i]] + b;
    assert s == a + c;
    FilterSkip(s[i], b, p);
    FilterAppend(a, c, p);
    FilterAppend(a, b, p);
  }

  lemma FilterSkip<T>(x: T, b: seq<T>, p: T -> bool)
    requires !p(x)
    ensures Filter([x] + b, p) == Filter(b, p)
  {
    assert ([x] + b)[1..] == b;
  }

  function Concat<T>(ss: seq<seq<T>>): seq<T> {
    if ss == [] then [] else Concat(ss[..|ss| - 1]) + ss[|ss| - 1]
  }

  // ---------------------------------------------------------------------------
  // Integer codes shared by the encoders and the pieces: codes below 300 are
  // notes, a code c >= 300 is a wait of c - 299 time units.

  /** Offset of the note_on codes (N_POSSIBLE_NOTES). */
  const NoteOnOffset := 150
  const WaitOffset := 299
  const TimeUnitStart := 300

  predicate IsWait(c: int) {
    c >= TimeUnitStart
  }

  predicate IsNoteCode(c: int) {
    c < TimeUnitStart
  }

  /** Sum of the waits a code stream carries: code - 299 for each wait code. */
  function TotalWait(codes: seq<int>): int {
    if codes == [] then 0
    else TotalWait(codes[..|codes| - 1]) + (if IsWait(codes[|codes| - 1]) then codes[|codes| - 1] - WaitOffset else 0)
  }

  lemma TotalWaitAppend(a: seq<int>, b: seq<int>)
    ensures TotalWait(a + b) == TotalWait(a) + TotalWait(b)
    decreases |b|
  {
    if b == [] {
      assert a + b == a;
    } else {
      assert (a + b)[..|a + b| - 1] == a + b[..|b| - 1];
      TotalWaitAppend(a, b[..|b| - 1]);
    }
  }

}
