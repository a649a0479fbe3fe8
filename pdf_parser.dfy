/**
 * The PDF service: the text of the pages that have any is joined with a
 * blank line between pages, split into chunks, and each chunk is paired
 * with its metadata (its index, the number of chunks, and the caller's
 * entries, which win on a clash).
 *
 * Reading a PDF is outside the model: the pages' extracted text, or the
 * reader's error message, is a parameter.
 */
module PdfParser {
  import opened Wrappers
  import opened PyText
  import opened Config
  import opened Splitter
  import opened SplitterProperties
  import opened SplitterExamples

  /** A metadata value: the backend stores strings and integers. */
  datatype MetaValue = Text(text: string) | Number(number: int)

  type Metadata = map<string, MetaValue>

  /** `{"text": chunk, "metadata": chunk_metadata}`. */
  datatype ChunkRecord = ChunkRecord(text: string, metadata: Metadata)

  /** Why `process_pdf` raised. */
  datatype PdfError = ParseFailed(reason: string) | NoTextExtracted(filename: string)

  function PdfErrorMessage(e: PdfError): string {
    match e
    case ParseFailed(reason) => "Failed to parse PDF: " + reason
    case NoTextExtracted(filename) => "No text could be extracted from " + filename
  }

  /** `PDFParser`: it holds the splitter built from the settings. */
  datatype PdfParser = PdfParser(splitter: TextSplitter)

  /** `PDFParser()` with the given settings. */
  function NewPdfParser(s: Settings): (p: PdfParser)
    ensures p.splitter.chunkSize == s.chunkSize && p.splitter.chunkOverlap == s.chunkOverlap
  {
    PdfParser(TextSplitter(s.chunkSize, s.chunkOverlap))
  }

  /** `metadata or {}`: a missing mapping adds nothing. */
  function Extra(metadata: Option<Metadata>): Metadata {
    metadata.GetOr(map[])
  }

  /** `{"chunk_index": i, "total_chunks": total, **(metadata or {})}`. */
  function ChunkMetadata(i: nat, total: nat, metadata: Option<Metadata>): Metadata {
    map["chunk_index" := Number(i), "total_chunks" := Number(total)] + Extra(metadata)
  }

  /** A chunk's metadata holds the two counters and the caller's entries; the caller's keys win on a clash. */
  lemma ChunkMetadataEntries(i: nat, total: nat, metadata: Option<Metadata>)
    ensures var m := ChunkMetadata(i, total, metadata);
      && m.Keys == {"chunk_index", "total_chunks"} + Extra(metadata).Keys
      && (forall k :: k in Extra(metadata) ==> m[k] == Extra(metadata)[k])
      && ("chunk_index" !in Extra(metadata) ==> m["chunk_index"] == Number(i))
      && ("total_chunks" !in Extra(metadata) ==> m["total_chunks"] == Number(total))
  {
  }

  /** The records `chunk_text` builds from the chunks, in order. */
  function ChunkRecords(chunks: seq<string>, metadata: Option<Metadata>): (r: seq<ChunkRecord>)
    ensures |r| == |chunks|
    ensures forall i :: 0 <= i < |r| ==> r[i].text == chunks[i]
  {
    seq(|chunks|, i requires 0 <= i < |chunks| => ChunkRecord(chunks[i], ChunkMetadata(i, |chunks|, metadata)))
  }

  /** `chunk_text`: split with the parser's splitter, then number the chunks. */
  method ChunkText(parser: PdfParser, text: string, metadata: Option<Metadata>) returns (records: seq<ChunkRecord>)
    ensures records == ChunkRecords(SplitFrom(text, parser.splitter, true, 0).chunks, metadata)
  {
    var run := SplitText(parser.splitter, text, true);
    records := NumberChunks(run.chunks, metadata);
  }

  /** The loop of `chunk_text` that pairs each chunk with its metadata. */
  method NumberChunks(chunks: seq<string>, metadata: Option<Metadata>) returns (records: seq<ChunkRecord>)
    ensures records == ChunkRecords(chunks, metadata)
  {
    records := [];
    for i := 0 to |chunks|
      invariant |records| == i
      invariant forall k :: 0 <= k < i ==> records[k] == ChunkRecord(chunks[k], ChunkMetadata(k, |chunks|, metadata))
    {
      records := records + [ChunkRecord(chunks[i], ChunkMetadata(i, |chunks|, metadata))];
    }
    RecordsAre(chunks, metadata, records);
  }

  lemma RecordsAre(chunks: seq<string>, metadata: Option<Metadata>, records: seq<ChunkRecord>)
    requires |records| == |chunks|
    requires forall k :: 0 <= k < |chunks| ==> records[k] == ChunkRecord(chunks[k], ChunkMetadata(k, |chunks|, metadata))
    ensures records == ChunkRecords(chunks, metadata)
  {
  }

  /** The pages whose text is not blank, in page order. */
  function NonBlankPages(pages: seq<string>): (r: seq<string>)
    ensures forall k :: 0 <= k < |r| ==> !Blank(r[k])
    ensures forall p :: p in r <==> p in pages && !Blank(p)
  {
    if pages == [] then []
    else
      var init := NonBlankPages(pages[..|pages| - 1]);
      var last := pages[|pages| - 1];
      assert pages == pages[..|pages| - 1] + [last];
      if Blank(last) then init else init + [last]
  }

  /**
   * `kept` is the pages at the indices `idx`, in page order: the indices
   * strictly increase and are exactly those of the non-blank pages.
   */
  predicate IndexesKept(pages: seq<string>, kept: seq<string>, idx: seq<nat>) {
    && |idx| == |kept|
    && (forall k :: 0 <= k < |idx| ==> idx[k] < |pages| && kept[k] == pages[idx[k]])
    && StrictlyIncreasing(idx)
    && (forall i :: 0 <= i < |pages| ==> (i in idx <==> !Blank(pages[i])))
  }

  /** The kept pages in page order, repeats included. */
  lemma {:induction false} NonBlankPagesOrder(pages: seq<string>) returns (idx: seq<nat>)
    ensures IndexesKept(pages, NonBlankPages(pages), idx)
    decreases |pages|
  {
    if pages == [] {
      idx := [];
    } else {
      var n := |pages| - 1;
      var prev := NonBlankPagesOrder(pages[..n]);
      if Blank(pages[n]) {
        assert NonBlankPages(pages) == NonBlankPages(pages[..n]);
        IndexesSkip(pages, NonBlankPages(pages[..n]), prev);
        idx := prev;
      } else {
        assert NonBlankPages(pages) == NonBlankPages(pages[..n]) + [pages[n]];
        IndexesKeep(pages, NonBlankPages(pages[..n]), prev);
        idx := prev + [n];
      }
    }
  }

  lemma IndexesSkip(pages: seq<string>, kept: seq<string>, idx: seq<nat>)
    requires pages != [] && Blank(pages[|pages| - 1])
    requires IndexesKept(pages[..|pages| - 1], kept, idx)
    ensures IndexesKept(pages, kept, idx)
  {
    var n := |pages| - 1;
    assert n !in idx;
    forall i | 0 <= i < n
      ensures i in idx <==> !Blank(pages[i])
    {
      assert pages[..n][i] == pages[i];
    }
  }

  lemma IndexesKeep(pages: seq<string>, kept: seq<string>, idx: seq<nat>)
    requires pages != [] && !Blank(pages[|pages| - 1])
    requires IndexesKept(pages[..|pages| - 1], kept, idx)
    ensures IndexesKept(pages, kept + [pages[|pages| - 1]], idx + [|pages| - 1])
  {
    var n := |pages| - 1;
    var idx' := idx + [n];
    assert n !in idx;
    SnocIncreasing(idx, n);
    forall i | 0 <= i < n
      ensures i in idx' <==> !Blank(pages[i])
    {
      assert pages[..n][i] == pages[i];
      assert i in idx' <==> i in idx;
    }
    assert n in idx';
  }

  lemma SnocIncreasing(cs: seq<nat>, x: nat)
    requires StrictlyIncreasing(cs)
    requires forall k :: 0 <= k < |cs| ==> cs[k] < x
    ensures StrictlyIncreasing(cs + [x])
  {
  }

  /** The text `extract_text_from_pdf` returns for the pages' extracted text. */
  function ExtractedText(pages: seq<string>): string {
    Join(NonBlankPages(pages), "\n\n")
  }

  /** `extract_text_from_pdf`, after the reader: keep the pages whose stripped text is not empty, join with a blank line. */
  method ExtractText(pages: seq<string>) returns (fullText: string)
    ensures fullText == Join(NonBlankPages(pages), "\n\n")
  {
    var parts: seq<string> := [];
    for i := 0 to |pages|
      invariant parts == NonBlankPages(pages[..i])
    {
      StripEmptyIffBlank(pages[i]);
      assert pages[..i + 1][..i] == pages[..i];
      if Strip(pages[i]) != [] {
        parts := parts + [pages[i]];
      }
    }
    assert pages[..|pages|] == pages;
    fullText := Join(parts, "\n\n");
  }

  /** The extracted text is blank exactly when every page is. */
  lemma ExtractedTextBlank(pages: seq<string>)
    ensures Blank(ExtractedText(pages)) <==> forall k :: 0 <= k < |pages| ==> Blank(pages[k])
  {
    var parts := NonBlankPages(pages);
    JoinBlank(parts, "\n\n");
    if forall k :: 0 <= k < |pages| ==> Blank(pages[k]) {
      if parts != [] {
        assert parts[0] in pages;
      }
    } else {
      var k :| 0 <= k < |pages| && !Blank(pages[k]);
      assert pages[k] in parts;
    }
  }

  /** `{"filename": filename, "source": "pdf", **(additional_metadata or {})}`. */
  function PdfMetadata(filename: string, additional: Option<Metadata>): Metadata {
    map["filename" := Text(filename), "source" := Text("pdf")] + Extra(additional)
  }

  /** A PDF's metadata names the file and the source kind, unless the caller's entries set those keys. */
  lemma PdfMetadataEntries(filename: string, additional: Option<Metadata>)
    ensures var m := PdfMetadata(filename, additional);
      && m.Keys == {"filename", "source"} + Extra(additional).Keys
      && (forall k :: k in Extra(additional) ==> m[k] == Extra(additional)[k])
      && ("filename" !in Extra(additional) ==> m["filename"] == Text(filename))
      && ("source" !in Extra(additional) ==> m["source"] == Text("pdf"))
  {
  }

  /**
   * `process_pdf`, with `pages` the reader's outcome: the text of each page,
   * or the message of the exception it raised.
   */
  method ProcessPdf(parser: PdfParser, pages: Result<seq<string>, string>, filename: string, additional: Option<Metadata>)
    returns (r: Result<seq<ChunkRecord>, PdfError>)
    ensures pages.Failure? ==> r == Failure(ParseFailed(pages.error))
    ensures pages.Success? ==> (r.Failure? <==> forall k :: 0 <= k < |pages.value| ==> Blank(pages.value[k]))
    ensures pages.Success? && r.Failure? ==> r.error == NoTextExtracted(filename)
    ensures r.Success? ==> pages.Success?
    ensures r.Success? && pages.Success? ==>
      r.value == ChunkRecords(SplitFrom(ExtractedText(pages.value), parser.splitter, true, 0).chunks, Some(PdfMetadata(filename, additional)))
    ensures r.Success? ==> forall k :: 0 <= k < |r.value| ==> WellFormedChunk(r.value[k].text, parser.splitter.chunkSize)
  {
    if pages.Failure? {
      return Failure(ParseFailed(pages.error));
    }
    var text := ExtractText(pages.value);
    StripEmptyIffBlank(text);
    ExtractedTextBlank(pages.value);
    if Strip(text) == [] {
      return Failure(NoTextExtracted(filename));
    }
    var metadata := PdfMetadata(filename, additional);
    var records := ChunkText(parser, text, Some(metadata));
    ChunksWellFormed(text, parser.splitter, true, 0);
    r := Success(records);
  }

  /** A chunk's own metadata: its index and the chunk count, unless the caller's metadata sets those keys. */
  lemma ChunkRecordMetadata(chunks: seq<string>, metadata: Option<Metadata>, i: nat)
    requires i < |chunks|
    ensures var m := ChunkRecords(chunks, metadata)[i].metadata;
      && ("chunk_index" !in Extra(metadata) ==> m["chunk_index"] == Number(i))
      && ("total_chunks" !in Extra(metadata) ==> m["total_chunks"] == Number(|chunks|))
      && (forall k :: k in Extra(metadata) ==> k in m && m[k] == Extra(metadata)[k])
  {
  }

  /** The parser built from the default settings splits with a 1000-character window and a 200-character overlap. */
  lemma DefaultParser()
    ensures NewPdfParser(Defaults).splitter == TextSplitter(1000, 200)
  {
  }

  /** With the default settings the splitter loop as written stalls on a text of 2302 characters. */
  lemma DefaultParserStalls(text: string)
    requires text == StallText()
    ensures SplitFrom(text, NewPdfParser(Defaults).splitter, false, 0).NoProgress?
  {
    DefaultParser();
    DefaultSplitterStalls(text);
  }
}
