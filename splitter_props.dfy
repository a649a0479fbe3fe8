/**
 * What the splitter guarantees, and where it fails to: chunk bounds,
 * boundary priority, provenance and order, the progress condition, the
 * corrected cursor update, and a text on which the loop as written
 * never ends.
 */
module SplitterProperties {
  import opened Wrappers
  import opened PyText
  import opened Splitter

  /** An occurrence fixes every character it covers. */
  lemma OccursAtChar(s: string, sub: string, k: int, m: nat)
    requires OccursAt(s, sub, k) && m < |sub|
    ensures s[k + m] == sub[m]
  {
    assert s[k..k + |sub|][m] == s[k + m];
  }

  /** Bounds of a separator cut inside a window: just past an occurrence, so past the start and within the end. */
  lemma {:induction false} SeparatorCutBounds(text: string, seps: seq<string>, start: nat, end: int)
    requires start <= end <= |text|
    requires forall j :: 0 <= j < |seps| ==> |seps[j]| >= 1
    ensures (forall j :: 0 <= j < |seps| ==> NoOccurrence(text, seps[j], start, end)) ==> SeparatorCut(text, seps, start, end).None?
    ensures SeparatorCut(text, seps, start, end).Some? ==> start + 1 <= SeparatorCut(text, seps, start, end).value <= end
  {
    if seps != [] {
      SeparatorCutBounds(text, seps[1..], start, end);
      if forall j :: 0 <= j < |seps| ==> NoOccurrence(text, seps[j], start, end) {
        assert forall j :: 0 <= j < |seps[1..]| ==> NoOccurrence(text, seps[1..][j], start, end) by {
          forall j | 0 <= j < |seps[1..]| ensures NoOccurrence(text, seps[1..][j], start, end) {
            assert seps[1..][j] == seps[j + 1];
          }
        }
        assert RFind(text, seps[0], start, end) == -1 by {
          assert NoOccurrence(text, seps[0], start, end);
        }
      }
      assert forall j :: 0 <= j < |seps[1..]| ==> |seps[1..][j]| >= 1 by {
        forall j | 0 <= j < |seps[1..]| ensures |seps[1..][j]| >= 1 {
          assert seps[1..][j] == seps[j + 1];
        }
      }
    }
  }

  /**
   * The first separator of `seps` that occurs in the window decides the cut,
   * whatever later separators do: the cut is just past its last occurrence.
   */
  lemma {:induction false} SeparatorCutFirst(text: string, seps: seq<string>, start: nat, end: int, i: nat, k: int)
    requires start <= end <= |text|
    requires i < |seps|
    requires forall j :: 0 <= j < i ==> NoOccurrence(text, seps[j], start, end)
    requires start <= k && k + |seps[i]| <= end && OccursAt(text, seps[i], k)
    ensures SeparatorCut(text, seps, start, end).Some?
    ensures var p := SeparatorCut(text, seps, start, end).value - |seps[i]|;
      k <= p && p + |seps[i]| <= end && OccursAt(text, seps[i], p) && NoOccurrence(text, seps[i], p + 1, end)
    decreases i
  {
    if i == 0 {
      var r := RFind(text, seps[0], start, end);
      assert k <= r;
    } else {
      assert RFind(text, seps[0], start, end) == -1 by {
        assert NoOccurrence(text, seps[0], start, end);
      }
      assert forall j :: 0 <= j < i - 1 ==> NoOccurrence(text, seps[1..][j], start, end) by {
        forall j | 0 <= j < i - 1 ensures NoOccurrence(text, seps[1..][j], start, end) {
          assert seps[1..][j] == seps[j + 1];
        }
      }
      assert seps[1..][i - 1] == seps[i];
      SeparatorCutFirst(text, seps[1..], start, end, i - 1, k);
    }
  }

  /** Every separator is non-empty. */
  lemma SeparatorsNonEmpty()
    ensures forall j :: 0 <= j < |Separators| ==> |Separators[j]| >= 1
  {
  }

  /**
   * A window cut before the end of the text ends within it, never left of
   * its start, and strictly after it when `chunk_size` is positive; the
   * last window keeps the raw end.
   */
  lemma WindowEndBounds(text: string, chunkSize: int, start: nat)
    requires start < |text| && 0 <= chunkSize
    ensures var e := WindowEnd(text, chunkSize, start);
      if start + chunkSize < |text| then start <= e <= start + chunkSize && (1 <= chunkSize ==> start < e)
      else e == start + chunkSize
  {
    var end := start + chunkSize;
    if end < |text| {
      SeparatorsNonEmpty();
      SeparatorCutBounds(text, Separators, start, end);
    }
  }

  /** A window's chunk is never longer than `chunk_size`. */
  lemma WindowChunkLength(text: string, chunkSize: int, start: nat)
    requires start < |text| && 0 <= chunkSize
    ensures |WindowChunk(text, start, WindowEnd(text, chunkSize, start))| <= chunkSize
  {
    WindowEndBounds(text, chunkSize, start);
    var s := Slice(text, start, WindowEnd(text, chunkSize, start));
    StripSpec(s);
  }

  /** What every emitted chunk is: non-empty, stripped, and no longer than `chunk_size` when that is not negative. */
  predicate WellFormedChunk(c: string, chunkSize: int) {
    c != [] && Trimmed(c) && (0 <= chunkSize ==> |c| <= chunkSize)
  }

  /** All chunks of a run are well formed, whether or not the run finishes. */
  lemma {:induction false} ChunksWellFormed(text: string, sp: TextSplitter, clamp: bool, start: nat)
    ensures forall k :: 0 <= k < |SplitFrom(text, sp, clamp, start).chunks| ==>
      WellFormedChunk(SplitFrom(text, sp, clamp, start).chunks[k], sp.chunkSize)
    decreases |text| - start
  {
    if start < |text| {
      var end := WindowEnd(text, sp.chunkSize, start);
      var next := NextStart(|text|, sp.chunkOverlap, start, end, clamp);
      SplitFromStep(text, sp, clamp, start, end, next);
      StripSpec(Slice(text, start, end));
      if 0 <= sp.chunkSize {
        WindowChunkLength(text, sp.chunkSize, start);
      }
      if next > start {
        ChunksWellFormed(text, sp, clamp, next);
      }
    }
  }

  /** Empty text gives no chunks. */
  lemma EmptyText(sp: TextSplitter, clamp: bool)
    ensures SplitFrom([], sp, clamp, 0) == Finished([])
  {
  }

  /** The last window runs to the end of the text, and the loop stops after it. */
  lemma FinalWindow(text: string, sp: TextSplitter, clamp: bool, start: nat)
    requires start < |text| <= start + sp.chunkSize
    ensures SplitFrom(text, sp, clamp, start) == Finished(Emitted(Strip(text[start..])))
  {
    var end := WindowEnd(text, sp.chunkSize, start);
    assert Slice(text, start, end) == text[start..];
    SplitFromStep(text, sp, clamp, start, end, |text|);
  }

  /**
   * Cut priority: when separator `i` occurs in the window and no separator
   * before it in priority order does, the window ends just past the last
   * occurrence of separator `i` in the window.
   */
  lemma SeparatorPriority(text: string, chunkSize: int, start: nat, i: nat, k: int)
    requires 0 <= chunkSize && start + chunkSize < |text|
    requires i < |Separators|
    requires forall j :: 0 <= j < i ==> NoOccurrence(text, Separators[j], start, start + chunkSize)
    requires start <= k && k + |Separators[i]| <= start + chunkSize && OccursAt(text, Separators[i], k)
    ensures var p := WindowEnd(text, chunkSize, start) - |Separators[i]|;
      k <= p && p + |Separators[i]| <= start + chunkSize &&
      OccursAt(text, Separators[i], p) && NoOccurrence(text, Separators[i], p + 1, start + chunkSize)
  {
    SeparatorCutFirst(text, Separators, start, start + chunkSize, i, k);
  }

  /**
   * Without any separator in the window the cut goes just after the last
   * space; without a space either it is the raw cut at `start + chunk_size`.
   */
  lemma SpaceFallback(text: string, chunkSize: int, start: nat)
    requires 0 <= chunkSize && start + chunkSize < |text|
    requires forall j :: 0 <= j < |Separators| ==> NoOccurrence(text, Separators[j], start, start + chunkSize)
    ensures var e := WindowEnd(text, chunkSize, start);
      if NoOccurrence(text, " ", start, start + chunkSize) then e == start + chunkSize
      else start < e <= start + chunkSize && text[e - 1] == ' ' && NoOccurrence(text, " ", e, start + chunkSize)
  {
    SeparatorsNonEmpty();
    SeparatorCutBounds(text, Separators, start, start + chunkSize);
    var r := RFind(text, " ", start, start + chunkSize);
    if r != -1 {
      OccursAtChar(text, " ", r, 0);
    }
  }

  /** The chunk of the window that starts at cursor `x`. */
  function ChunkAt(text: string, chunkSize: int, x: nat): string {
    WindowChunk(text, x, WindowEnd(text, chunkSize, x))
  }

  /** `ChunkAt` as a function of the cursor. */
  function ChunkOf(text: string, chunkSize: int): nat -> string {
    (x: nat) => ChunkAt(text, chunkSize, x)
  }

  /** `[x]` when `f` keeps a non-empty chunk at `x`, else nothing. */
  function Kept(f: nat -> string, x: nat): seq<nat> {
    if f(x) == [] then [] else [x]
  }

  /** The cursor list of one window: the cursor when its chunk is kept, nothing when it is blank. */
  function KeptCursor(text: string, chunkSize: int, x: nat): seq<nat> {
    Kept(ChunkOf(text, chunkSize), x)
  }

  /** The cursors at which the kept chunks were cut, in the order of the run. */
  ghost function Cursors(text: string, sp: TextSplitter, clamp: bool, start: nat): seq<nat>
    decreases |text| - start
  {
    if start >= |text| then []
    else
      var end := WindowEnd(text, sp.chunkSize, start);
      var here := KeptCursor(text, sp.chunkSize, start);
      var next := NextStart(|text|, sp.chunkOverlap, start, end, clamp);
      if next <= start then here else here + Cursors(text, sp, clamp, next)
  }

  /** One step of `Cursors`, in the shape of `SplitFromStep`. */
  lemma CursorsStep(text: string, sp: TextSplitter, clamp: bool, start: nat, end: int, next: int)
    requires start < |text|
    requires end == WindowEnd(text, sp.chunkSize, start)
    requires next == NextStart(|text|, sp.chunkOverlap, start, end, clamp)
    ensures var here := KeptCursor(text, sp.chunkSize, start);
      Cursors(text, sp, clamp, start) == if next <= start then here else here + Cursors(text, sp, clamp, next)
  {
  }

  predicate StrictlyIncreasing(cs: seq<nat>) {
    forall j, k :: 0 <= j < k < |cs| ==> cs[j] < cs[k]
  }

  predicate AllWithin(cs: seq<nat>, lo: int, hi: int) {
    forall k :: 0 <= k < |cs| ==> lo <= cs[k] < hi
  }

  lemma ConsIncreasing(x: nat, here: seq<nat>, rest: seq<nat>, lo: int, hi: int)
    requires here == [] || here == [x]
    requires x < lo && x < hi && AllWithin(rest, lo, hi) && StrictlyIncreasing(rest)
    ensures AllWithin(here + rest, x, hi) && StrictlyIncreasing(here + rest)
  {
    var cs := here + rest;
    if here == [] {
      assert cs == rest;
    } else {
      assert forall k :: 1 <= k < |cs| ==> cs[k] == rest[k - 1];
    }
  }

  /** `chunks` is `cs` mapped through `f`. */
  predicate Mapped(f: nat -> string, chunks: seq<string>, cs: seq<nat>) {
    |cs| == |chunks| && forall k :: 0 <= k < |cs| ==> chunks[k] == f(cs[k])
  }

  lemma MappedCons(f: nat -> string, x: nat, chunks: seq<string>, cs: seq<nat>)
    requires Mapped(f, chunks, cs)
    ensures Mapped(f, [f(x)] + chunks, [x] + cs)
  {
    forall k | 1 <= k < |cs| + 1
      ensures ([f(x)] + chunks)[k] == f(([x] + cs)[k])
    {
      assert ([x] + cs)[k] == cs[k - 1];
    }
  }

  /** Chunk `k` is the chunk of the window that starts at cursor `k`. */
  predicate ChunksAtCursors(text: string, chunkSize: int, chunks: seq<string>, cs: seq<nat>) {
    Mapped(ChunkOf(text, chunkSize), chunks, cs)
  }

  lemma MappedKept(f: nat -> string, x: nat, chunks: seq<string>, cs: seq<nat>)
    requires Mapped(f, chunks, cs)
    ensures Mapped(f, Emitted(f(x)) + chunks, Kept(f, x) + cs)
  {
    if f(x) != [] {
      MappedCons(f, x, chunks, cs);
    } else {
      assert Emitted(f(x)) + chunks == chunks;
      assert Kept(f, x) + cs == cs;
    }
  }

  /** Order: the cursors of a run lie in the text from `start` on, and strictly increase. */
  lemma {:induction false} CursorsIncrease(text: string, sp: TextSplitter, clamp: bool, start: nat)
    ensures AllWithin(Cursors(text, sp, clamp, start), start, |text|)
    ensures StrictlyIncreasing(Cursors(text, sp, clamp, start))
    decreases |text| - start
  {
    if start < |text| {
      var end := WindowEnd(text, sp.chunkSize, start);
      var next := NextStart(|text|, sp.chunkOverlap, start, end, clamp);
      var here := KeptCursor(text, sp.chunkSize, start);
      CursorsStep(text, sp, clamp, start, end, next);
      if next > start {
        CursorsIncrease(text, sp, clamp, next);
        ConsIncreasing(start, here, Cursors(text, sp, clamp, next), next, |text|);
      } else {
        ConsIncreasing(start, here, [], start + 1, |text|);
        assert here + [] == here;
      }
    }
  }

  /** Provenance: chunk `k` is the stripped slice of the text from cursor `k` to that window's end. */
  lemma {:induction false} ChunkProvenance(text: string, sp: TextSplitter, clamp: bool, start: nat)
    ensures ChunksAtCursors(text, sp.chunkSize, SplitFrom(text, sp, clamp, start).chunks, Cursors(text, sp, clamp, start))
    decreases |text| - start
  {
    if start < |text| {
      var end := WindowEnd(text, sp.chunkSize, start);
      var next := NextStart(|text|, sp.chunkOverlap, start, end, clamp);
      SplitFromStep(text, sp, clamp, start, end, next);
      CursorsStep(text, sp, clamp, start, end, next);
      var f := ChunkOf(text, sp.chunkSize);
      assert f(start) == WindowChunk(text, start, end);
      if next > start {
        ChunkProvenance(text, sp, clamp, next);
        MappedKept(f, start, SplitFrom(text, sp, clamp, next).chunks, Cursors(text, sp, clamp, next));
      } else {
        MappedKept(f, start, [], []);
        assert Emitted(f(start)) + [] == Emitted(f(start));
        assert Kept(f, start) + [] == Kept(f, start);
      }
    }
  }

  /** An occurrence inside an occurrence is an occurrence. */
  lemma OccursWithin(t: string, s: string, w: string, a: int, b: int)
    requires OccursAt(t, s, a) && OccursAt(s, w, b)
    ensures OccursAt(t, w, a + b)
  {
    forall i | 0 <= i < |w|
      ensures t[a + b + i] == w[i]
    {
      assert t[a + b + i] == t[a..a + |s|][b + i];
      assert w[i] == s[b..b + |w|][i];
    }
    assert t[a + b..a + b + |w|] == w;
  }

  /** The stripped form of an occurrence is an occurrence. */
  lemma StrippedOccurs(text: string, s: string, lo: int) returns (a: nat)
    requires OccursAt(text, s, lo)
    ensures OccursAt(text, Strip(s), a)
  {
    var d := StripOccurs(s);
    OccursWithin(text, s, Strip(s), lo, d);
    a := lo + d;
  }

  lemma SliceOccurs(text: string, start: int, end: int) returns (lo: nat)
    ensures OccursAt(text, Slice(text, start, end), lo)
  {
    lo := SliceBound(start, |text|);
  }

  /** A chunk is a piece of the text: it occurs in it, at offset `a`. */
  lemma WindowChunkOccurs(text: string, start: int, end: int) returns (a: nat)
    ensures OccursAt(text, WindowChunk(text, start, end), a)
  {
    var lo := SliceOccurs(text, start, end);
    a := StrippedOccurs(text, Slice(text, start, end), lo);
  }

  /** A run that stops does so at a cursor it reached, never before `start`, with a next cursor not past it. */
  lemma {:induction false} NoProgressCursor(text: string, sp: TextSplitter, clamp: bool, start: nat)
    ensures var run := SplitFrom(text, sp, clamp, start);
      run.NoProgress? ==> start <= run.cursor < |text| && run.next <= run.cursor
    ensures var run := SplitFrom(text, sp, clamp, start);
      var e := WindowEnd(text, sp.chunkSize, start);
      start < |text| ==>
        ((run.NoProgress? && run.cursor == start) <==> NextStart(|text|, sp.chunkOverlap, start, e, clamp) <= start)
    decreases |text| - start
  {
    if start < |text| {
      var end := WindowEnd(text, sp.chunkSize, start);
      var next := NextStart(|text|, sp.chunkOverlap, start, end, clamp);
      SplitFromStep(text, sp, clamp, start, end, next);
      if next > start {
        NoProgressCursor(text, sp, clamp, next);
      }
    }
  }

  /**
   * The progress condition of the loop as written: it stops advancing at
   * `start` exactly when the window ends before the text does and no more
   * than `chunk_overlap` characters after `start`.
   */
  lemma StallCondition(text: string, sp: TextSplitter, start: nat)
    requires start < |text|
    ensures var run := SplitFrom(text, sp, false, start);
      var e := WindowEnd(text, sp.chunkSize, start);
      (run.NoProgress? && run.cursor == start) <==> (e < |text| && e - sp.chunkOverlap <= start)
  {
    NoProgressCursor(text, sp, false, start);
  }

  /** The corrected update always moves the cursor forward, so the corrected loop always finishes. */
  lemma {:induction false} ClampedFinishes(text: string, sp: TextSplitter, start: nat)
    ensures SplitFrom(text, sp, true, start).Finished?
    decreases |text| - start
  {
    if start < |text| {
      var end := WindowEnd(text, sp.chunkSize, start);
      var next := NextStart(|text|, sp.chunkOverlap, start, end, true);
      SplitFromStep(text, sp, true, start, end, next);
      ClampedFinishes(text, sp, next);
    }
  }

  /**
   * Wherever the loop as written advances at every step (its run here
   * finishes), the corrected loop returns the same chunks. It says nothing
   * of a source run that steps back to a smaller cursor and then finishes.
   */
  lemma {:induction false} ClampedAgrees(text: string, sp: TextSplitter, start: nat)
    requires SplitFrom(text, sp, false, start).Finished?
    ensures SplitFrom(text, sp, true, start) == SplitFrom(text, sp, false, start)
    decreases |text| - start
  {
    if start < |text| {
      var end := WindowEnd(text, sp.chunkSize, start);
      var next := NextStart(|text|, sp.chunkOverlap, start, end, false);
      SplitFromStep(text, sp, false, start, end, next);
      assert next > start;
      assert NextStart(|text|, sp.chunkOverlap, start, end, true) == next;
      SplitFromStep(text, sp, true, start, end, next);
      ClampedAgrees(text, sp, next);
    }
  }

  /**
   * Termination under an explicit condition: if from every cursor the
   * window either reaches the end of the text or ends more than
   * `chunk_overlap` characters after the cursor, the loop finishes.
   */
  lemma {:induction false} CutBeyondOverlapFinishes(text: string, sp: TextSplitter, clamp: bool, start: nat)
    requires forall s :: start <= s < |text| ==>
      WindowEnd(text, sp.chunkSize, s) >= |text| || WindowEnd(text, sp.chunkSize, s) - sp.chunkOverlap > s
    ensures SplitFrom(text, sp, clamp, start).Finished?
    decreases |text| - start
  {
    if start < |text| {
      var end := WindowEnd(text, sp.chunkSize, start);
      var next := NextStart(|text|, sp.chunkOverlap, start, end, clamp);
      SplitFromStep(text, sp, clamp, start, end, next);
      CutBeyondOverlapFinishes(text, sp, clamp, next);
    }
  }

  /** With a positive chunk size and no overlap (or a negative one) the loop as written always finishes. */
  lemma NoOverlapFinishes(text: string, sp: TextSplitter)
    requires 1 <= sp.chunkSize && sp.chunkOverlap <= 0
    ensures SplitFrom(text, sp, false, 0).Finished?
  {
    forall s | 0 <= s < |text|
      ensures WindowEnd(text, sp.chunkSize, s) >= |text| || WindowEnd(text, sp.chunkSize, s) - sp.chunkOverlap > s
    {
      WindowEndBounds(text, sp.chunkSize, s);
    }
    CutBeyondOverlapFinishes(text, sp, false, 0);
  }

  /** Text with neither spaces nor newlines from `from` on holds no separator and no space there. */
  lemma NoBreaksNoBoundary(text: string, from: nat)
    requires forall i :: from <= i < |text| ==> text[i] != ' ' && text[i] != '\n'
    ensures forall j, k :: 0 <= j < |Separators| && from <= k ==> !OccursAt(text, Separators[j], k)
    ensures forall k :: from <= k ==> !OccursAt(text, " ", k)
  {
    forall j, k | 0 <= j < |Separators| && from <= k ensures !OccursAt(text, Separators[j], k) {
      if OccursAt(text, Separators[j], k) {
        var m := if j < 3 then 1 else 0;
        OccursAtChar(text, Separators[j], k, m);
      }
    }
    forall k | from <= k ensures !OccursAt(text, " ", k) {
      if OccursAt(text, " ", k) {
        OccursAtChar(text, " ", k, 0);
      }
    }
  }

  /** When no separator occurs from `from` on, no separator cut is found in a window starting there. */
  lemma {:induction false} SeparatorCutNone(text: string, seps: seq<string>, from: nat, start: int, end: int)
    requires from <= start
    requires forall j, k :: 0 <= j < |seps| && from <= k ==> !OccursAt(text, seps[j], k)
    ensures SeparatorCut(text, seps, start, end) == None
  {
    if seps != [] {
      assert !OccursAt(text, seps[0], RFind(text, seps[0], start, end));
      assert forall j, k :: 0 <= j < |seps[1..]| && from <= k ==> !OccursAt(text, seps[1..][j], k) by {
        forall j, k | 0 <= j < |seps[1..]| && from <= k ensures !OccursAt(text, seps[1..][j], k) {
          assert seps[1..][j] == seps[j + 1];
        }
      }
      SeparatorCutNone(text, seps[1..], from, start, end);
    }
  }

  /** Where the text has neither spaces nor newlines from `from` on, every window starting there is the raw cut. */
  lemma RawWindow(text: string, chunkSize: int, from: nat, start: nat)
    requires from <= start
    requires forall i :: from <= i < |text| ==> text[i] != ' ' && text[i] != '\n'
    ensures WindowEnd(text, chunkSize, start) == start + chunkSize
  {
    var end := start + chunkSize;
    if end < |text| {
      NoBreaksNoBoundary(text, from);
      SeparatorCutNone(text, Separators, from, start, end);
      assert !OccursAt(text, " ", RFind(text, " ", start, end));
    }
  }

  /**
   * For text without a space or newline the loop as written advances
   * exactly when `chunk_overlap < chunk_size`, and then it finishes.
   */
  lemma NoBreaksProgress(text: string, sp: TextSplitter)
    requires forall i :: 0 <= i < |text| ==> text[i] != ' ' && text[i] != '\n'
    requires sp.chunkOverlap < sp.chunkSize
    ensures SplitFrom(text, sp, false, 0).Finished?
  {
    forall s | 0 <= s < |text|
      ensures WindowEnd(text, sp.chunkSize, s) >= |text| || WindowEnd(text, sp.chunkSize, s) - sp.chunkOverlap > s
    {
      RawWindow(text, sp.chunkSize, 0, s);
    }
    CutBeyondOverlapFinishes(text, sp, false, 0);
  }

  /** And conversely: a raw cut with `chunk_overlap >= chunk_size` stalls at once. */
  lemma NoBreaksStall(text: string, sp: TextSplitter)
    requires forall i :: 0 <= i < |text| ==> text[i] != ' ' && text[i] != '\n'
    requires 0 < |text| && sp.chunkSize < |text| && sp.chunkOverlap >= sp.chunkSize
    ensures SplitFrom(text, sp, false, 0).NoProgress?
    ensures SplitFrom(text, sp, false, 0).cursor == 0
  {
    RawWindow(text, sp.chunkSize, 0, 0);
    assert WindowEnd(text, sp.chunkSize, 0) == sp.chunkSize;
    StallCondition(text, sp, 0);
  }
}
