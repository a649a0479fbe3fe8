/**
 * Concrete runs of the splitter. A plain text of 2500 characters gives
 * three chunks. And an input on which the splitter loop as written stops advancing
 * with the default settings (`chunk_size` 1000, `chunk_overlap` 200): one
 * sentence end 302 characters into a text longer than a window. Both of
 * the first two windows end at that sentence end, so the cursor falls
 * back from 302 to 102 twice and never gets past it. And "hello", a newline
 * and 2000 `x`s, on which the loop as written steps back from 0 to -194,
 * reads an empty window there, and still finishes, with other chunks than
 * the corrected loop's.
 */
module SplitterExamples {
  import opened Wrappers
  import opened PyText
  import opened Splitter
  import opened SplitterProperties

  /** 300 `a`s, one sentence end `". "`, then 2000 `b`s. */
  function StallText(): string {
    seq(300, _ => 'a') + ". " + seq(2000, _ => 'b')
  }

  lemma StallTextChars()
    ensures |StallText()| == 2302
    ensures forall i :: 0 <= i < 2302 && i != 300 ==> StallText()[i] != '.'
    ensures StallText()[300] == '.' && StallText()[301] == ' '
    ensures forall i :: 0 <= i < 300 ==> StallText()[i] == 'a'
  {
    var t := StallText();
    forall i | 0 <= i < 2302 && i != 300 ensures t[i] != '.' {
      if i < 300 {
        assert t[i] == 'a';
      } else if i == 301 {
        assert t[i] == ' ';
      } else {
        assert t[i] == 'b';
      }
    }
  }

  /** The only sentence end in the text is the one at 300. */
  lemma OnlySentenceEnd()
    ensures OccursAt(StallText(), ". ", 300)
    ensures forall k :: OccursAt(StallText(), ". ", k) ==> k == 300
  {
    var t := StallText();
    StallTextChars();
    assert t[300..302] == ". ";
    forall k | OccursAt(t, ". ", k) ensures k == 300 {
      OccursAtChar(t, ". ", k, 0);
    }
  }

  /** From cursor 0 and from cursor 102 the window ends just after the sentence end. */
  lemma StallWindows(s: nat)
    requires s == 0 || s == 102
    ensures WindowEnd(StallText(), 1000, s) == 302
  {
    var t := StallText();
    StallTextChars();
    OnlySentenceEnd();
    var r := RFind(t, ". ", s, s + 1000);
    assert FindStart(s, |t|) == s;
    assert SliceBound(s + 1000, |t|) == s + 1000;
    assert r == 300;
    assert Separators[0] == ". ";
    assert SeparatorCut(t, Separators, s, s + 1000) == Some(302);
  }

  /** Stripping a string that only ends with one whitespace character drops that character. */
  lemma StripOneTrailingSpace(s: string)
    requires 2 <= |s| && !IsSpace(s[0]) && !IsSpace(s[|s| - 2]) && IsSpace(s[|s| - 1])
    ensures Strip(s) == s[..|s| - 1]
  {
    assert LStrip(s) == s;
    assert RStrip(s[..|s| - 1]) == s[..|s| - 1];
  }

  lemma StallChunks()
    ensures WindowChunk(StallText(), 0, 302) == StallText()[0..301]
    ensures WindowChunk(StallText(), 102, 302) == StallText()[102..301]
  {
    var t := StallText();
    StallTextChars();
    assert Slice(t, 0, 302) == t[0..302];
    StripOneTrailingSpace(t[0..302]);
    assert t[0..302][..301] == t[0..301];
    assert Slice(t, 102, 302) == t[102..302];
    StripOneTrailingSpace(t[102..302]);
    assert t[102..302][..199] == t[102..301];
  }

  /** The first chunk is the 300 `a`s and the period. */
  lemma FirstStallChunk()
    ensures StallText()[0..301] == seq(300, _ => 'a') + "."
  {
    StallTextChars();
  }

  /** From cursor 102 the next cursor is 102 again. */
  lemma StallAt102()
    ensures SplitFrom(StallText(), TextSplitter(1000, 200), false, 102) == NoProgress([StallText()[102..301]], 102, 102)
  {
    var t := StallText();
    StallWindows(102);
    StallChunks();
    assert |t| == 2302 by { StallTextChars(); }
    SplitFromStep(t, TextSplitter(1000, 200), false, 102, 302, 102);
  }

  /** From cursor 0 the window ends at 302 and the loop goes on at 102. */
  lemma StepFrom0()
    ensures SplitFrom(StallText(), TextSplitter(1000, 200), false, 0)
         == Prepend([StallText()[0..301]], SplitFrom(StallText(), TextSplitter(1000, 200), false, 102))
  {
    var t := StallText();
    StallWindows(0);
    StallChunks();
    assert |t| == 2302 by { StallTextChars(); }
    SplitFromStep(t, TextSplitter(1000, 200), false, 0, 302, 102);
  }

  /**
   * The loop as written, with the default chunk size and overlap, emits two
   * chunks and then stays at cursor 102 forever; the corrected loop finishes.
   */
  lemma DefaultSplitterStalls(text: string)
    requires text == StallText()
    ensures SplitFrom(text, TextSplitter(1000, 200), false, 0) == NoProgress([text[0..301], text[102..301]], 102, 102)
    ensures SplitFrom(text, TextSplitter(1000, 200), true, 0).Finished?
  {
    StallAt102();
    StepFrom0();
    ClampedFinishes(text, TextSplitter(1000, 200), 0);
  }

  /** A text of 2500 `x`s. */
  predicate PlainText(text: string) {
    |text| == 2500 && forall i :: 0 <= i < |text| ==> text[i] == 'x'
  }

  /** The chunk of a window of text without whitespace is the raw slice. */
  lemma PlainChunk(text: string, s: nat, e: nat)
    requires forall i :: 0 <= i < |text| ==> text[i] == 'x'
    requires s < e <= |text|
    ensures WindowChunk(text, s, e) == text[s..e]
  {
    assert Slice(text, s, e) == text[s..e];
    StripTrimmed(text[s..e]);
  }

  /** One step of a run over plain text: a raw window of 1000, then back by 200. */
  lemma PlainStep(text: string, s: nat, e: nat, next: nat)
    requires PlainText(text)
    requires s < 2500
    requires e == (if s + 1000 < 2500 then s + 1000 else 2500)
    requires next == (if s + 1000 < 2500 then s + 800 else 2500)
    ensures SplitFrom(text, TextSplitter(1000, 200), false, s)
         == Prepend([text[s..e]], SplitFrom(text, TextSplitter(1000, 200), false, next))
  {
    RawWindow(text, 1000, 0, s);
    PlainChunk(text, s, e);
    if s + 1000 >= 2500 {
      assert Slice(text, s, s + 1000) == Slice(text, s, e);
    }
    SplitFromStep(text, TextSplitter(1000, 200), false, s, s + 1000, next);
  }

  /** 2500 plain characters with chunk size 1000 and overlap 200: chunks of 1000, 1000 and 900 characters. */
  lemma PlainTextScenario(text: string)
    requires text == seq(2500, _ => 'x')
    ensures SplitFrom(text, TextSplitter(1000, 200), false, 0) == Finished([text[0..1000], text[800..1800], text[1600..2500]])
  {
    assert PlainText(text);
    PlainFrom0(text);
  }

  lemma PlainFrom0(text: string)
    requires PlainText(text)
    ensures SplitFrom(text, TextSplitter(1000, 200), false, 0) == Finished([text[0..1000], text[800..1800], text[1600..2500]])
  {
    var sp := TextSplitter(1000, 200);
    assert SplitFrom(text, sp, false, 2500) == Finished([]);
    PlainStep(text, 1600, 2500, 2500);
    PlainStep(text, 800, 1800, 1600);
    PlainStep(text, 0, 1000, 800);
    Chain3(SplitFrom(text, sp, false, 0), SplitFrom(text, sp, false, 800), SplitFrom(text, sp, false, 1600), SplitFrom(text, sp, false, 2500),
           text[0..1000], text[800..1800], text[1600..2500]);
  }

  /**
   * A text on which the loop as written steps back and still finishes:
   * "hello", a newline, then 2000 `x`s, with the default sizes.
   */
  function HelloText(): string {
    "hello\n" + seq(2000, _ => 'x')
  }

  predicate HelloShape(t: string) {
    && |t| == 2006
    && t[0] == 'h' && t[1] == 'e' && t[2] == 'l' && t[3] == 'l' && t[4] == 'o' && t[5] == '\n'
    && forall i :: 6 <= i < 2006 ==> t[i] == 'x'
  }

  /** The only separator in the text is the newline at 5. */
  lemma HelloBoundaries(t: string)
    requires HelloShape(t)
    ensures forall j :: 0 <= j < 4 ==> NoOccurrence(t, Separators[j], 0, |t|)
    ensures forall k :: OccursAt(t, "\n", k) ==> k == 5
    ensures OccursAt(t, "\n", 5)
  {
    forall j, k | 0 <= j < 4 && 0 <= k && k + |Separators[j]| <= |t|
      ensures !OccursAt(t, Separators[j], k)
    {
      assert t[k..k + 2][0] == t[k] && t[k..k + 2][1] == t[k + 1];
    }
    forall k | OccursAt(t, "\n", k) ensures k == 5 {
      assert t[k..k + 1][0] == t[k];
    }
    assert t[5..6][0] == t[5];
  }

  /** A search whose range is empty once its bounds are normalised finds no separator. */
  lemma {:induction false} SeparatorCutEmptyRange(text: string, seps: seq<string>, start: int, end: int)
    requires SliceBound(end, |text|) < FindStart(start, |text|)
    ensures SeparatorCut(text, seps, start, end) == None
  {
    if seps != [] {
      SeparatorCutEmptyRange(text, seps[1..], start, end);
    }
  }

  /** From each cursor up to the newline, the window ends just after it. */
  lemma HelloWindow(t: string, s: nat)
    requires HelloShape(t) && s <= 5
    ensures WindowEnd(t, 1000, s) == 6
  {
    HelloBoundaries(t);
    var end := s + 1000;
    forall j | 0 <= j < 4 ensures NoOccurrence(t, Separators[j], s, end) {
      assert NoOccurrence(t, Separators[j], 0, |t|);
    }
    assert Separators[4] == "\n";
    SeparatorCutFirst(t, Separators, s, end, 4, 5);
  }

  /** A step of the corrected loop before the newline: the chunk is the rest of "hello", and the cursor moves on by one. */
  lemma HelloStep(t: string, s: nat)
    requires HelloShape(t) && s < 5
    ensures SplitFrom(t, TextSplitter(1000, 200), true, s) == Prepend([t[s..5]], SplitFrom(t, TextSplitter(1000, 200), true, s + 1))
  {
    HelloWindow(t, s);
    assert Slice(t, s, 6) == t[s..6];
    StripOneTrailingSpace(t[s..6]);
    assert t[s..6][..5 - s] == t[s..5];
    SplitFromStep(t, TextSplitter(1000, 200), true, s, 6, s + 1);
  }

  /** At the newline itself the chunk is blank and is dropped. */
  lemma HelloStep5(t: string)
    requires HelloShape(t)
    ensures SplitFrom(t, TextSplitter(1000, 200), true, 5) == Prepend([], SplitFrom(t, TextSplitter(1000, 200), true, 6))
  {
    HelloWindow(t, 5);
    assert Slice(t, 5, 6) == t[5..6];
    StripEmptyIffBlank(t[5..6]);
    SplitFromStep(t, TextSplitter(1000, 200), true, 5, 6, 6);
  }

  /** A step over the `x`s, either loop: a raw window of 1000, then back by 200. */
  lemma XStep(t: string, s: nat, e: nat, next: nat, clamp: bool)
    requires HelloShape(t) && 6 <= s < 2006
    requires e == (if s + 1000 < 2006 then s + 1000 else 2006)
    requires next == (if s + 1000 < 2006 then s + 800 else 2006)
    ensures SplitFrom(t, TextSplitter(1000, 200), clamp, s) == Prepend([t[s..e]], SplitFrom(t, TextSplitter(1000, 200), clamp, next))
  {
    RawWindow(t, 1000, 6, s);
    XChunk(t, s, e);
    SplitFromStep(t, TextSplitter(1000, 200), clamp, s, s + 1000, next);
  }

  /** A window over the `x`s is its raw slice, cut at the end of the text. */
  lemma XChunk(t: string, s: nat, e: nat)
    requires HelloShape(t) && 6 <= s < 2006
    requires e == (if s + 1000 < 2006 then s + 1000 else 2006)
    ensures WindowChunk(t, s, s + 1000) == t[s..e]
  {
    assert Slice(t, s, s + 1000) == t[s..e];
    assert t[s..e][0] == 'x' && t[s..e][e - s - 1] == 'x';
    StripTrimmed(t[s..e]);
  }

  /** The loop as written cuts after the newline, emits "hello", and its next cursor is -194. */
  lemma HelloAsWritten(t: string)
    requires HelloShape(t)
    ensures SplitFrom(t, TextSplitter(1000, 200), false, 0) == NoProgress([t[0..5]], 0, -194)
  {
    HelloWindow(t, 0);
    assert Slice(t, 0, 6) == t[0..6];
    StripOneTrailingSpace(t[0..6]);
    assert t[0..6][..5] == t[0..5];
    SplitFromStep(t, TextSplitter(1000, 200), false, 0, 6, -194);
  }

  /**
   * The source's step from -194: the start -194 counts from the end (1812) and
   * lies past the end bound 806, so the window is empty and the cursor moves to 606.
   */
  lemma HelloFromMinus194(t: string)
    requires HelloShape(t)
    ensures WindowEnd(t, 1000, -194) == 806 && WindowChunk(t, -194, 806) == []
    ensures NextStart(|t|, 200, -194, 806, false) == 606
  {
    assert FindStart(-194, |t|) == 1812 && SliceBound(806, |t|) == 806;
    SeparatorCutEmptyRange(t, Separators, -194, 806);
    assert RFind(t, " ", -194, 806) == -1;
    assert Slice(t, -194, 806) == [];
    StripEmptyIffBlank([]);
  }

  /** From 606 the loop as written finishes with 1000 and then 600 `x`s. */
lemma HelloFrom606(t: string)
    requires HelloShape(t)
    ensures SplitFrom(t, TextSplitter(1000, 200), false, 606) == Finished([t[606..1606], t[1406..2006]])
  {
    var sp := TextSplitter(1000, 200);
    assert SplitFrom(t, sp, false, 2006) == Finished([]);
    XStep(t, 1406, 2006, 2006, false);
    XStep(t, 606, 1606, 1406, false);
    Chain2(SplitFrom(t, sp, false, 606), SplitFrom(t, sp, false, 1406), SplitFrom(t, sp, false, 2006), t[606..1606], t[1406..2006]);
  }

  /** From 6 the corrected loop cuts the `x`s into 1000, 1000 and 400. */
lemma ClampedFrom6(t: string)
    requires HelloShape(t)
    ensures SplitFrom(t, TextSplitter(1000, 200), true, 6) == Finished([t[6..1006], t[806..1806], t[1606..2006]])
  {
    var sp := TextSplitter(1000, 200);
    assert SplitFrom(t, sp, true, 2006) == Finished([]);
    XStep(t, 1606, 2006, 2006, true);
    XStep(t, 806, 1806, 1606, true);
    XStep(t, 6, 1006, 806, true);
    Chain3(SplitFrom(t, sp, true, 6), SplitFrom(t, sp, true, 806), SplitFrom(t, sp, true, 1606), SplitFrom(t, sp, true, 2006),
           t[6..1006], t[806..1806], t[1606..2006]);
  }

  /** Two steps that each emit one chunk, then the end of the text. */
  lemma Chain2(r0: SplitRun, r1: SplitRun, r2: SplitRun, a: string, b: string)
    requires r0 == Prepend([a], r1) && r1 == Prepend([b], r2) && r2 == Finished([])
    ensures r0 == Finished([a, b])
  {
    assert [a] + ([b] + []) == [a, b];
  }

  /** Three steps that each emit one chunk, then the end of the text. */
  lemma Chain3(r0: SplitRun, r1: SplitRun, r2: SplitRun, r3: SplitRun, a: string, b: string, c: string)
    requires r0 == Prepend([a], r1) && r1 == Prepend([b], r2) && r2 == Prepend([c], r3) && r3 == Finished([])
    ensures r0 == Finished([a, b, c])
  {
    Chain2(r1, r2, r3, b, c);
    assert [a] + [b, c] == [a, b, c];
  }

  /** One more chunk in front of a run that finishes. */
  lemma ConsRun(r0: SplitRun, r1: SplitRun, c: string, h: seq<string>, x: seq<string>)
    requires r0 == Prepend([c], r1) && r1 == Finished(h + x)
    ensures r0 == Finished(([c] + h) + x)
  {
    assert [c] + (h + x) == ([c] + h) + x;
  }

  /** A run whose first five chunks are known. */
  lemma Splice(r: SplitRun, h: seq<string>, x: seq<string>, a: string, b: string, c: string, d: string, e: string)
    requires r == Finished(h + x) && h == [a, b, c, d, e]
    ensures r == Finished([a, b, c, d, e] + x)
  {
  }

  /** The corrected loop emits every suffix of "hello", drops the newline, then cuts the `x`s. */
  /** The chunks the corrected loop emits from cursor `s` before the newline: every suffix of "hello" from `s` on. */
  function HelloSuffixes(t: string, s: nat): (r: seq<string>)
    requires |t| >= 5 && s <= 5
    ensures |r| == 5 - s
    decreases 5 - s
  {
    if s == 5 then [] else [t[s..5]] + HelloSuffixes(t, s + 1)
  }

  /** From any cursor up to the newline, the corrected loop emits the rest of "hello" and then cuts the `x`s. */
  lemma {:induction false} ClampedFromHello(t: string, s: nat)
    requires HelloShape(t) && s <= 5
    ensures SplitFrom(t, TextSplitter(1000, 200), true, s)
         == Finished(HelloSuffixes(t, s) + [t[6..1006], t[806..1806], t[1606..2006]])
    decreases 5 - s
  {
    if s == 5 {
      ClampedFrom6(t);
      HelloStep5(t);
    } else {
      var sp := TextSplitter(1000, 200);
      ClampedFromHello(t, s + 1);
      HelloStep(t, s);
      ConsRun(SplitFrom(t, sp, true, s), SplitFrom(t, sp, true, s + 1), t[s..5], HelloSuffixes(t, s + 1),
              [t[6..1006], t[806..1806], t[1606..2006]]);
    }
  }

  /** The corrected loop emits every suffix of "hello", drops the newline, then cuts the `x`s. */
  lemma HelloClamped(t: string)
    requires HelloShape(t)
    ensures SplitFrom(t, TextSplitter(1000, 200), true, 0)
         == Finished([t[0..5], t[1..5], t[2..5], t[3..5], t[4..5]] + [t[6..1006], t[806..1806], t[1606..2006]])
  {
    ClampedFromHello(t, 0);
    HelloSuffixesFrom0(t);
    Splice(SplitFrom(t, TextSplitter(1000, 200), true, 0), HelloSuffixes(t, 0), [t[6..1006], t[806..1806], t[1606..2006]],
           t[0..5], t[1..5], t[2..5], t[3..5], t[4..5]);
  }

  lemma HelloSuffixesFrom0(t: string)
    requires |t| >= 5
    ensures HelloSuffixes(t, 0) == [t[0..5], t[1..5], t[2..5], t[3..5], t[4..5]]
  {
    var a, b, c, d, e := t[0..5], t[1..5], t[2..5], t[3..5], t[4..5];
    assert HelloSuffixes(t, 4) == [e] + [];
    assert HelloSuffixes(t, 3) == [d] + [e];
    assert HelloSuffixes(t, 2) == [c] + [d, e];
    assert HelloSuffixes(t, 1) == [b] + [c, d, e];
    assert HelloSuffixes(t, 0) == [a] + [b, c, d, e];
  }

  /**
   * The loop as written, from cursor 0, cuts after the newline, emits
   * "hello", and the cursor falls back to -194, where the model's run stops.
   * The source goes on: at -194 the start counts from the end (1812) and
   * lies past the end bound 806, so the window is empty, and the cursor moves
   * to 606, from where it finishes. So the source returns three chunks, "hello", 1000 `x`s and
   * 600 `x`s; the corrected loop returns eight.
   */
  lemma SteppingBack(text: string)
    requires text == HelloText()
    ensures text[0..5] == "hello"
    ensures SplitFrom(text, TextSplitter(1000, 200), false, 0) == NoProgress([text[0..5]], 0, -194)
    ensures WindowEnd(text, 1000, -194) == 806 && WindowChunk(text, -194, 806) == []
    ensures NextStart(|text|, 200, -194, 806, false) == 606
    ensures SplitFrom(text, TextSplitter(1000, 200), false, 606) == Finished([text[606..1606], text[1406..2006]])
    ensures SplitFrom(text, TextSplitter(1000, 200), true, 0)
         == Finished([text[0..5], text[1..5], text[2..5], text[3..5], text[4..5]] + [text[6..1006], text[806..1806], text[1606..2006]])
  {
    assert HelloShape(text);
    assert text[0..5] == "hello";
    HelloAsWritten(text);
    HelloFromMinus194(text);
    HelloFrom606(text);
    HelloClamped(text);
  }
}
