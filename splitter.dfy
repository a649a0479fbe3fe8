/**
 * The text splitter used before indexing: a cursor walks over the text,
 * cutting windows of at most `chunk_size` characters at the best boundary
 * it can find, and moves back by `chunk_overlap` after each window.
 *
 * The source's loop has no forward-progress guard, so it can run forever.
 * `SplitFrom` follows it step by step and stops with `NoProgress` at the
 * first step whose next cursor is not past the current one. With
 * `clamp` set it uses the corrected cursor update, which always advances.
 */
module Splitter {
  import opened Wrappers
  import opened PyText

  /** The sentence and paragraph separators, highest priority first. */
  const Separators: seq<string> := [". ", "! ", "? ", "\n\n", "\n"]

  /** `SimpleTextSplitter(chunk_size, chunk_overlap)`. */
  datatype TextSplitter = TextSplitter(chunkSize: int, chunkOverlap: int)

  /** The end just past the last occurrence, in `text[start:end]`, of the first separator of `seps` that occurs there. */
  function SeparatorCut(text: string, seps: seq<string>, start: int, end: int): Option<int>
  {
    if seps == [] then None
    else
      var p := RFind(text, seps[0], start, end);
      if p != -1 then Some(p + |seps[0]|) else SeparatorCut(text, seps[1..], start, end)
  }

  /** Where the window that begins at `start` ends, after the boundary search. */
  function WindowEnd(text: string, chunkSize: int, start: int): int {
    var end := start + chunkSize;
    if end < |text| then
      match SeparatorCut(text, Separators, start, end)
      case Some(cut) => cut
      case None =>
        var space := RFind(text, " ", start, end);
        if space != -1 then space + 1 else end
    else end
  }

  /** The chunk a window yields: its slice, stripped. */
  function WindowChunk(text: string, start: int, end: int): string {
    Strip(Slice(text, start, end))
  }

  /**
   * The next cursor: `end - chunk_overlap` while the window ended before
   * the text, else the text length. With `clamp`, at least `start + 1`.
   */
  function NextStart(textLength: nat, chunkOverlap: int, start: int, end: int, clamp: bool): int {
    if end < textLength then
      if clamp && end - chunkOverlap <= start then start + 1 else end - chunkOverlap
    else textLength
  }

  /**
   * How the loop goes on from some cursor: it reaches the end of the text
   * with `chunks`, or appends `chunks` and then reaches a step at `cursor`
   * whose next cursor `next` is not past it.
   */
  datatype SplitRun = Finished(chunks: seq<string>) | NoProgress(chunks: seq<string>, cursor: int, next: int)

  /** The chunks `emitted` followed by the run `run`. */
  function Prepend(emitted: seq<string>, run: SplitRun): (r: SplitRun)
    ensures r.chunks == emitted + run.chunks
    ensures r.Finished? == run.Finished?
  {
    match run
    case Finished(cs) => Finished(emitted + cs)
    case NoProgress(cs, at, nx) => NoProgress(emitted + cs, at, nx)
  }

  /** The loop of `split_text` from cursor `start`. */
  function SplitFrom(text: string, sp: TextSplitter, clamp: bool, start: nat): SplitRun
    decreases |text| - start
  {
    if start >= |text| then Finished([])
    else
      var end := WindowEnd(text, sp.chunkSize, start);
      var piece := WindowChunk(text, start, end);
      var emitted := Emitted(piece);
      var next := NextStart(|text|, sp.chunkOverlap, start, end, clamp);
      if next <= start then NoProgress(emitted, start, next)
      else Prepend(emitted, SplitFrom(text, sp, clamp, next))
  }

  /** The chunks one window contributes: its stripped slice, unless that is empty. */
  function Emitted(chunk: string): seq<string> {
    if chunk == [] then [] else [chunk]
  }

  /** One iteration of the loop, with the window end and next cursor already computed. */
  lemma SplitFromStep(text: string, sp: TextSplitter, clamp: bool, start: nat, end: int, next: int)
    requires start < |text|
    requires end == WindowEnd(text, sp.chunkSize, start)
    requires next == NextStart(|text|, sp.chunkOverlap, start, end, clamp)
    ensures next <= start ==> SplitFrom(text, sp, clamp, start) == NoProgress(Emitted(WindowChunk(text, start, end)), start, next)
    ensures next > start ==> SplitFrom(text, sp, clamp, start) == Prepend(Emitted(WindowChunk(text, start, end)), SplitFrom(text, sp, clamp, next))
  {
  }

  lemma PrependPrepend(a: seq<string>, b: seq<string>, run: SplitRun)
    ensures Prepend(a, Prepend(b, run)) == Prepend(a + b, run)
  {
    match run
    case Finished(cs) => assert a + (b + cs) == (a + b) + cs;
    case NoProgress(cs, _, _) => assert a + (b + cs) == (a + b) + cs;
  }

  /**
   * The boundary search of one loop iteration: the `for`/`else` over the
   * separators, then the fallback to the last space.
   */
  method FindWindowEnd(text: string, chunkSize: int, start: int) returns (end: int)
    ensures end == WindowEnd(text, chunkSize, start)
  {
    end := start + chunkSize;
    if end < |text| {
      var i := 0;
      var found := false;
      while i < |Separators|
        invariant 0 <= i <= |Separators|
        invariant end == start + chunkSize && !found
        invariant SeparatorCut(text, Separators, start, end) == SeparatorCut(text, Separators[i..], start, end)
        decreases |Separators| - i
      {
        var lastSep := RFind(text, Separators[i], start, end);
        if lastSep != -1 {
          end := lastSep + |Separators[i]|;
          found := true;
          break;
        }
        i := i + 1;
      }
      if !found {
        var lastSpace := RFind(text, " ", start, end);
        if lastSpace != -1 {
          end := lastSpace + 1;
        }
      }
    }
  }

  /**
   * `split_text`, as written when `clamp` is false: the result is the run
   * of the loop from cursor 0.
   */
  method SplitText(splitter: TextSplitter, text: string, clamp: bool) returns (run: SplitRun)
    ensures run == SplitFrom(text, splitter, clamp, 0)
  {
    if |text| == 0 {
      return Finished([]);
    }
    var chunks: seq<string> := [];
    var start := 0;
    var textLength := |text|;
    while start < textLength
      invariant 0 <= start
      invariant Prepend(chunks, SplitFrom(text, splitter, clamp, start)) == SplitFrom(text, splitter, clamp, 0)
      decreases textLength - start
    {
      var end := FindWindowEnd(text, splitter.chunkSize, start);
      var chunk := Strip(Slice(text, start, end));
      ghost var before := chunks;
      if chunk != [] {
        chunks := chunks + [chunk];
      }
      assert chunks == before + Emitted(chunk);
      var next := if end < textLength then end - splitter.chunkOverlap else textLength;
      if clamp && end < textLength && next <= start {
        next := start + 1;
      }
      SplitFromStep(text, splitter, clamp, start, end, next);
      if next <= start {
        return NoProgress(chunks, start, next);
      }
      PrependPrepend(before, Emitted(chunk), SplitFrom(text, splitter, clamp, next));
      start := next;
    }
    run := Finished(chunks);
  }
}
