/**
 * The retrieval-augmented answer pipeline: embed the question, search the
 * tenant's namespace, and either answer that nothing is known (no
 * documents) or build a numbered context, prompt the generator with it,
 * and return the stripped answer with the sources.
 *
 * Embedding, search, generation and the float formatting of scores are
 * collaborators passed in as functions; the vector store is a log of the
 * vectors upserted into it.
 */
module RagService {
  import opened Wrappers
  import opened PyText
  import opened Config
  import opened Security
  import opened PdfParser

  /** An embedding vector. */
  type Embedding = seq<real>

  /** A match from the vector store; each key may be missing. */
  datatype RetrievedDoc = RetrievedDoc(id: Option<string>, text: Option<string>, score: Option<real>)

  /** `doc.get("text", "")`. */
  function DocText(d: RetrievedDoc): string {
    d.text.GetOr([])
  }

  /** `doc.get("score", 0)`. */
  function DocScore(d: RetrievedDoc): real {
    d.score.GetOr(0.0)
  }

  /** A source in the answer: the document id, a preview of its text, and its rounded score. */
  datatype Source = Source(id: Option<string>, text: string, score: real)

  /** The result of `query`. */
  datatype QueryResult = QueryResult(answer: string, sources: seq<Source>, question: string)

  /**
   * The services the pipeline calls: the embedder, the search of a
   * namespace for the `k` nearest vectors, the generator, and the score
   * formatting `{score:.2f}` and `round(score, 4)`. The first three may
   * raise; they then give the exception's message.
   */
  datatype Collaborators = Collaborators(
    embed: string -> Result<Embedding, string>,
    search: (string, Embedding, int) -> Result<seq<RetrievedDoc>, string>,
    generate: string -> Result<string, string>,
    showScore: real -> string,
    roundScore: real -> real)

  const NoInformationAnswer: string :=
    "I don't have enough information to answer this question. Please upload relevant documents first."

  const PreviewLength: nat := 200

  /** `doc.get("text", "")[:200] + "..."`. */
  function SourcePreview(text: string): (r: string)
    ensures |r| == (if |text| < PreviewLength then |text| else PreviewLength) + 3
    ensures r[..|r| - 3] == text[..|r| - 3]
    ensures r[|r| - 3..] == "..."
  {
    Slice(text, 0, PreviewLength) + "..."
  }

  function FormatSource(d: RetrievedDoc, roundScore: real -> real): Source {
    Source(d.id, SourcePreview(DocText(d)), roundScore(DocScore(d)))
  }

  /** The sources `_format_sources` returns: one per document, in order. */
  function FormattedSources(docs: seq<RetrievedDoc>, roundScore: real -> real): (r: seq<Source>)
    ensures |r| == |docs|
    ensures forall i :: 0 <= i < |r| ==> r[i].id == docs[i].id && r[i].score == roundScore(DocScore(docs[i]))
  {
    seq(|docs|, i requires 0 <= i < |docs| => FormatSource(docs[i], roundScore))
  }

  /** Each source's text is the first 200 characters of its document followed by "...", even for shorter text. */
  lemma SourceText(docs: seq<RetrievedDoc>, roundScore: real -> real, i: nat)
    requires i < |docs|
    ensures var t := FormattedSources(docs, roundScore)[i].text;
      var n := if |DocText(docs[i])| < PreviewLength then |DocText(docs[i])| else PreviewLength;
      |t| == n + 3 && t == DocText(docs[i])[..n] + "..."
  {
    var t := FormattedSources(docs, roundScore)[i].text;
    assert t == SourcePreview(DocText(docs[i]));
    assert t == t[..|t| - 3] + t[|t| - 3..];
  }

  /** `_format_sources`. */
  method FormatSources(docs: seq<RetrievedDoc>, roundScore: real -> real) returns (sources: seq<Source>)
    ensures sources == FormattedSources(docs, roundScore)
  {
    sources := [];
    for i := 0 to |docs|
      invariant |sources| == i
      invariant forall k :: 0 <= k < i ==> sources[k] == FormatSource(docs[k], roundScore)
    {
      sources := sources + [FormatSource(docs[i], roundScore)];
    }
  }

  /** `f"[Document {n}] (Relevance: {score:.2f})\n"`. */
  function Header(n: nat, score: string): string {
    "[Document " + Decimal(n) + "] (Relevance: " + score + ")\n"
  }

  /** The part of the context for the document at position `i` (numbered `i + 1`). */
  function ContextPart(i: nat, d: RetrievedDoc, showScore: real -> string): string {
    Header(i + 1, showScore(DocScore(d))) + DocText(d)
  }

  function ContextParts(docs: seq<RetrievedDoc>, showScore: real -> string): (r: seq<string>)
    ensures |r| == |docs|
  {
    seq(|docs|, i requires 0 <= i < |docs| => ContextPart(i, docs[i], showScore))
  }

  /** The context `_build_context` returns. */
  function Context(docs: seq<RetrievedDoc>, showScore: real -> string): string {
    Join(ContextParts(docs, showScore), "\n\n")
  }

  /**
   * Part `i` of the context is numbered `i + 1` (the number reads back as
   * `i + 1`), carries the document's score, and ends with the document's text.
   */
  lemma ContextNumbering(docs: seq<RetrievedDoc>, showScore: real -> string, i: nat)
    requires i < |docs|
    ensures var p := ContextParts(docs, showScore)[i];
      var digits := Decimal(i + 1);
      && p == "[Document " + digits + "] (Relevance: " + showScore(DocScore(docs[i])) + ")\n" + DocText(docs[i])
      && DecimalValue(digits) == i + 1
  {
    DecimalRoundTrip(i + 1);
  }

  /** Appending a document appends its part after a blank line. */
  lemma ContextAppend(docs: seq<RetrievedDoc>, d: RetrievedDoc, showScore: real -> string)
    requires docs != []
    ensures Context(docs + [d], showScore) == Context(docs, showScore) + "\n\n" + ContextPart(|docs|, d, showScore)
  {
    var parts := ContextParts(docs, showScore);
    assert ContextParts(docs + [d], showScore) == parts + [ContextPart(|docs|, d, showScore)];
    JoinAppend(parts, "\n\n", ContextPart(|docs|, d, showScore));
  }

  /** `_build_context`. */
  method BuildContext(docs: seq<RetrievedDoc>, showScore: real -> string) returns (context: string)
    ensures context == Context(docs, showScore)
  {
    var parts: seq<string> := [];
    for i := 0 to |docs|
      invariant parts == ContextParts(docs[..i], showScore)
    {
      assert docs[..i + 1] == docs[..i] + [docs[i]];
      parts := parts + [ContextPart(i, docs[i], showScore)];
    }
    assert docs[..|docs|] == docs;
    context := Join(parts, "\n\n");
  }

  const PromptIntro: string :=
    "You are a helpful assistant that answers questions based on the provided context.\n"
    + "Use only the information from the context to answer the question.\n"
    + "If the context doesn't contain enough information to answer the question, say so clearly.\n"
    + "Be concise and accurate in your responses.\n\nContext:\n"

  const QuestionLead: string := "\n\nQuestion: "

  const AnswerLead: string := "\n\nAnswer:"

  /** The prompt of `_generate_answer`. */
  function Prompt(context: string, question: string): string {
    PromptIntro + context + QuestionLead + question + AnswerLead
  }

  /**
   * The layout of the prompt: the instructions, then the context, then the
   * question line, and it ends with "Answer:".
   */
  lemma PromptLayout(context: string, question: string)
    ensures var p := Prompt(context, question);
      && OccursAt(p, PromptIntro, 0)
      && OccursAt(p, context, |PromptIntro|)
      && OccursAt(p, QuestionLead + question, |PromptIntro| + |context|)
      && OccursAt(p, AnswerLead, |p| - |AnswerLead|)
  {
    var p := Prompt(context, question);
    assert p == PromptIntro + context + (QuestionLead + question) + AnswerLead;
  }

  /** Two prompts over contexts of the same length are equal only for the same context and question. */
  lemma PromptInjective(c1: string, q1: string, c2: string, q2: string)
    requires |c1| == |c2| && Prompt(c1, q1) == Prompt(c2, q2)
    ensures c1 == c2 && q1 == q2
  {
    var p := Prompt(c1, q1);
    var n := |PromptIntro|;
    assert c1 == p[n..n + |c1|];
    assert c2 == Prompt(c2, q2)[n..n + |c2|];
    var m := n + |c1| + |QuestionLead|;
    assert |q1| == |q2|;
    assert q1 == p[m..m + |q1|];
    assert q2 == Prompt(c2, q2)[m..m + |q2|];
  }

  /** `_generate_answer`: the stripped output of the generator, or its error unchanged. */
  function GenerateAnswer(generate: string -> Result<string, string>, question: string, context: string): (r: Result<string, string>)
    ensures generate(Prompt(context, question)).Failure? ==> r == Failure(generate(Prompt(context, question)).error)
    ensures generate(Prompt(context, question)).Success? ==> r.Success?
    ensures generate(Prompt(context, question)).Success? ==> r.value == Strip(generate(Prompt(context, question)).value)
  {
    match generate(Prompt(context, question))
    case Success(text) => Success(Strip(text))
    case Failure(e) => Failure(e)
  }

  /** A generated answer is the generator's output with surrounding whitespace removed. */
  lemma GeneratedAnswerStripped(generate: string -> Result<string, string>, question: string, context: string)
    requires generate(Prompt(context, question)).Success?
    ensures var a := GenerateAnswer(generate, question, context).value;
      var out := generate(Prompt(context, question)).value;
      Trimmed(a) && (exists d :: OccursAt(out, a, d)) && (Blank(out) <==> a == [])
  {
    var out := generate(Prompt(context, question)).value;
    StripTrimmedResult(out);
    StripEmptyIffBlank(out);
    var d := StripOccurs(out);
  }

  /** `top_k`, or the configured default when it is missing. */
  function EffectiveTopK(topK: Option<int>, s: Settings): (k: int)
    ensures topK.Some? ==> k == topK.value
    ensures topK.None? ==> k == s.topKResults
  {
    topK.GetOr(s.topKResults)
  }

  /** With the default settings a missing `top_k` retrieves 5 documents. */
  lemma DefaultTopK()
    ensures EffectiveTopK(None, Defaults) == 5
  {
  }

  /**
   * The documents `query` retrieves: the nearest ones in the tenant's
   * namespace, or the error of the embedder or, failing that, of the search.
   */
  function Retrieve(c: Collaborators, s: Settings, tenantId: string, question: string, topK: Option<int>): Result<seq<RetrievedDoc>, string> {
    match c.embed(question)
    case Failure(e) => Failure(e)
    case Success(v) => c.search(SanitizeNamespace(tenantId), v, EffectiveTopK(topK, s))
  }

  /** `query`; an exception of a collaborator is raised again, here returned as the error. */
  function Query(c: Collaborators, s: Settings, tenantId: string, question: string, topK: Option<int>): Result<QueryResult, string> {
    match Retrieve(c, s, tenantId, question, topK)
    case Failure(e) => Failure(e)
    case Success(docs) =>
      if docs == [] then
        Success(QueryResult(NoInformationAnswer, [], question))
      else
        match GenerateAnswer(c.generate, question, Context(docs, c.showScore))
        case Failure(e) => Failure(e)
        case Success(answer) => Success(QueryResult(answer, FormattedSources(docs, c.roundScore), question))
  }

  /**
   * An embedder error is the query's error, whatever the search would do;
   * otherwise a search error is.
   */
  lemma QueryRetrievalFails(c: Collaborators, s: Settings, tenantId: string, question: string, topK: Option<int>,
                            search: (string, Embedding, int) -> Result<seq<RetrievedDoc>, string>)
    ensures c.embed(question).Failure? ==>
      Query(c.(search := search), s, tenantId, question, topK) == Failure(c.embed(question).error)
    ensures c.embed(question).Success? ==>
      var found := c.search(SanitizeNamespace(tenantId), c.embed(question).value, EffectiveTopK(topK, s));
      found.Failure? ==> Query(c, s, tenantId, question, topK) == Failure(found.error)
  {
    assert c.embed(question).Failure? ==> Retrieve(c.(search := search), s, tenantId, question, topK) == Failure(c.embed(question).error);
  }

  /**
   * No documents: the fixed answer, no sources, the question unchanged,
   * whatever the generator and the score formatting would do.
   */
  lemma QueryEmptyRetrieval(c: Collaborators, s: Settings, tenantId: string, question: string, topK: Option<int>,
                            generate: string -> Result<string, string>, showScore: real -> string)
    requires Retrieve(c, s, tenantId, question, topK) == Success([])
    ensures Query(c, s, tenantId, question, topK) == Success(QueryResult(NoInformationAnswer, [], question))
    ensures Query(c.(generate := generate, showScore := showScore), s, tenantId, question, topK) == Query(c, s, tenantId, question, topK)
  {
    assert Retrieve(c.(generate := generate, showScore := showScore), s, tenantId, question, topK) == Success([]);
  }

  /**
   * Some documents: the query succeeds exactly when the generator does on
   * the prompt over their context, and then returns the stripped output,
   * one source per document and the question unchanged.
   */
  lemma QueryAnswered(c: Collaborators, s: Settings, tenantId: string, question: string, topK: Option<int>)
    requires Retrieve(c, s, tenantId, question, topK).Success? && Retrieve(c, s, tenantId, question, topK).value != []
    ensures var docs := Retrieve(c, s, tenantId, question, topK).value;
      var out := c.generate(Prompt(Context(docs, c.showScore), question));
      var r := Query(c, s, tenantId, question, topK);
      && (r.Success? <==> out.Success?)
      && (out.Failure? ==> r.error == out.error)
      && (out.Success? ==> r.value == QueryResult(Strip(out.value), FormattedSources(docs, c.roundScore), question))
  {
  }

  /** Tenants with the same namespace get the same result: isolation holds only up to the namespace. */
  lemma QueryDependsOnNamespace(c: Collaborators, s: Settings, t1: string, t2: string, question: string, topK: Option<int>)
    requires SanitizeNamespace(t1) == SanitizeNamespace(t2)
    ensures Query(c, s, t1, question, topK) == Query(c, s, t2, question, topK)
  {
  }

  /** "Acme" and "acme" are served from the same namespace. */
  lemma CaseVariantsShareResults(c: Collaborators, s: Settings, question: string, topK: Option<int>)
    ensures Query(c, s, "Acme", question, topK) == Query(c, s, "acme", question, topK)
  {
    NamespaceNotInjective();
    QueryDependsOnNamespace(c, s, "Acme", "acme", question, topK);
  }

  /** The pairs `zip` yields: as many as the shorter sequence has. */
  function Zip<A, B>(a: seq<A>, b: seq<B>): (r: seq<(A, B)>)
    ensures |r| == if |a| < |b| then |a| else |b|
    ensures forall i :: 0 <= i < |r| ==> r[i] == (a[i], b[i])
  {
    if a == [] || b == [] then [] else [(a[0], b[0])] + Zip(a[1..], b[1..])
  }

  /** A vector in the store, with the id it was given. */
  datatype StoredVector = StoredVector(id: nat, namespace: string, values: Embedding, metadata: Metadata)

  /** `{"text": text, "tenant_id": tenant_id, **(metadata or {})}`. */
  function DocMetadata(text: string, tenantId: string, metadata: Option<Metadata>): Metadata {
    map["text" := Text(text), "tenant_id" := Text(tenantId)] + Extra(metadata)
  }

  /** A stored vector's metadata holds its text and tenant and the caller's entries; the caller's keys win on a clash. */
  lemma DocMetadataEntries(text: string, tenantId: string, metadata: Option<Metadata>)
    ensures var m := DocMetadata(text, tenantId, metadata);
      && m.Keys == {"text", "tenant_id"} + Extra(metadata).Keys
      && (forall k :: k in Extra(metadata) ==> m[k] == Extra(metadata)[k])
      && ("text" !in Extra(metadata) ==> m["text"] == Text(text))
      && ("tenant_id" !in Extra(metadata) ==> m["tenant_id"] == Text(tenantId))
  {
  }

  /** The vectors one batch upload adds, with ids from `base` on. */
  function BatchVectors(tenantId: string, pairs: seq<(ChunkRecord, Embedding)>, base: nat): (r: seq<StoredVector>)
    ensures |r| == |pairs|
  {
    seq(|pairs|, i requires 0 <= i < |pairs| =>
      StoredVector(base + i, SanitizeNamespace(tenantId), pairs[i].1, DocMetadata(pairs[i].0.text, tenantId, Some(pairs[i].0.metadata))))
  }

  lemma BatchVectorsAppend(tenantId: string, pairs: seq<(ChunkRecord, Embedding)>, i: nat, base: nat)
    requires i < |pairs|
    ensures BatchVectors(tenantId, pairs[..i + 1], base) == BatchVectors(tenantId, pairs[..i], base) +
      [StoredVector(base + i, SanitizeNamespace(tenantId), pairs[i].1, DocMetadata(pairs[i].0.text, tenantId, Some(pairs[i].0.metadata)))]
  {
  }

  function Texts(chunks: seq<ChunkRecord>): (r: seq<string>)
    ensures |r| == |chunks| && forall i :: 0 <= i < |r| ==> r[i] == chunks[i].text
  {
    seq(|chunks|, i requires 0 <= i < |chunks| => chunks[i].text)
  }

  /**
   * The position, from `from` on and below `n`, of the first upsert the
   * index refuses (`indexErrors(k)` is the error it raises for the upsert
   * at position `k`, if any), or `n` when it refuses none.
   */
  function FirstRefusal(indexErrors: nat -> Option<string>, from: nat, n: nat): (m: nat)
    requires from <= n
    ensures from <= m <= n
    ensures forall k :: from <= k < m ==> indexErrors(k).None?
    ensures m < n ==> indexErrors(m).Some?
    decreases n - from
  {
    if from == n then n
    else if indexErrors(from).Some? then from
    else FirstRefusal(indexErrors, from + 1, n)
  }

  /** A position before which every upsert is accepted and at which one is refused (or the end) is the first refusal. */
  lemma FirstRefusalIs(indexErrors: nat -> Option<string>, n: nat, i: nat)
    requires i <= n
    requires forall k :: 0 <= k < i ==> indexErrors(k).None?
    requires i < n ==> indexErrors(i).Some?
    ensures FirstRefusal(indexErrors, 0, n) == i
  {
  }

  /**
   * The vector store, as the log of the vectors upserted into it. A random
   * id in the source, the id here is the vector's position in the log.
   */
  class VectorStore {
    var vectors: seq<StoredVector>

    /** Every vector's id is its position. */
    predicate Valid()
      reads this
    {
      forall i :: 0 <= i < |vectors| ==> vectors[i].id == i
    }

    /** Ids are unique, as the random ids of the source are taken to be. */
    lemma IdsUnique()
      requires Valid()
      ensures forall i, j :: 0 <= i < |vectors| && 0 <= j < |vectors| && vectors[i].id == vectors[j].id ==> i == j
    {
    }

    constructor()
      ensures vectors == [] && Valid()
    {
      vectors := [];
    }

    /**
     * `upsert_document`: one vector into the tenant's namespace, unless the
     * index refuses it with `indexError`; then nothing is stored.
     */
    method UpsertDocument(tenantId: string, text: string, embedding: Embedding, metadata: Option<Metadata>,
                          indexError: Option<string>) returns (r: Result<nat, string>)
      requires Valid()
      modifies this
      ensures Valid()
      ensures indexError.Some? ==> r == Failure(indexError.value) && vectors == old(vectors)
      ensures indexError.None? ==> r == Success(|old(vectors)|)
      ensures indexError.None? ==>
        vectors == old(vectors) + [StoredVector(|old(vectors)|, SanitizeNamespace(tenantId), embedding, DocMetadata(text, tenantId, metadata))]
    {
      if indexError.Some? {
        return Failure(indexError.value);
      }
      r := Success(|vectors|);
      vectors := vectors + [StoredVector(|vectors|, SanitizeNamespace(tenantId), embedding, DocMetadata(text, tenantId, metadata))];
    }
  }

  /**
   * `upload_documents_batch`: embed the chunks' texts in one call, then
   * upsert one vector per (chunk, embedding) pair in chunk order; extra
   * chunks or embeddings are dropped by the zip. An embedder error stores
   * nothing; a refused upsert is raised again and leaves the pairs before
   * it stored.
   */
  method UploadDocumentsBatch(store: VectorStore, tenantId: string, chunks: seq<ChunkRecord>,
                              embedBatch: seq<string> -> Result<seq<Embedding>, string>, indexErrors: nat -> Option<string>)
    returns (r: Result<seq<nat>, string>)
    requires store.Valid()
    modifies store
    ensures store.Valid()
    ensures embedBatch(Texts(chunks)).Failure? ==>
      r == Failure(embedBatch(Texts(chunks)).error) && store.vectors == old(store.vectors)
    ensures embedBatch(Texts(chunks)).Success? ==>
      var pairs := Zip(chunks, embedBatch(Texts(chunks)).value);
      var m := FirstRefusal(indexErrors, 0, |pairs|);
      && store.vectors == old(store.vectors) + BatchVectors(tenantId, pairs[..m], |old(store.vectors)|)
      && (r.Success? <==> m == |pairs|)
      && (r.Failure? ==> r.error == indexErrors(m).value)
      && (r.Success? ==> |r.value| == |pairs| && forall i :: 0 <= i < |r.value| ==> r.value[i] == |old(store.vectors)| + i)
    ensures r.Success? ==> forall i :: 0 <= i < |r.value| ==> r.value[i] < |store.vectors| && store.vectors[r.value[i]].id == r.value[i]
  {
    var texts := Texts(chunks);
    var embedded := embedBatch(texts);
    if embedded.Failure? {
      return Failure(embedded.error);
    }
    var pairs := Zip(chunks, embedded.value);
    ghost var base := |store.vectors|;
    var ids := [];
    for i := 0 to |pairs|
      invariant store.Valid()
      invariant forall k :: 0 <= k < i ==> indexErrors(k).None?
      invariant |ids| == i
      invariant forall k :: 0 <= k < i ==> ids[k] == base + k
      invariant store.vectors == old(store.vectors) + BatchVectors(tenantId, pairs[..i], base)
    {
      var (chunk, embedding) := pairs[i];
      var stored := store.UpsertDocument(tenantId, chunk.text, embedding, Some(chunk.metadata), indexErrors(i));
      if stored.Failure? {
        FirstRefusalIs(indexErrors, |pairs|, i);
        return Failure(stored.error);
      }
      BatchVectorsAppend(tenantId, pairs, i, base);
      ids := ids + [stored.value];
    }
    FirstRefusalIs(indexErrors, |pairs|, |pairs|);
    assert pairs[..|pairs|] == pairs;
    r := Success(ids);
  }
}
