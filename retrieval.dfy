/** The query side of app.py: the raw hits of a nearest-neighbour search
    are turned into ranked results over the metadata list, and the results
    are turned into a numbered context for the language model and into the
    answer's list of links. The vector search, the embedding of the question
    and the language model are parameters: `search(k)` is what
    `index.search(query_vector, k)` returns for the question, and
    `generate(prompt)` is the text the model answers with. Scores are only
    compared, so they are integers here. */
module Retrieval {
  import opened Util
  import opened Text
  import opened Sorting

  const SimilarityThreshold: int := 0
  const TopKResults: nat := 5
  const SnippetLength: nat := 150
  const NoInformationAnswer := "I couldn't find any relevant information in my knowledge base."

  /** an entry of metadata.json as the query side reads it; `chunk_id`
      may be absent */
  datatype StoredEntry = StoredEntry(text: string, source: string, kind: string, chunkId: Option<int>)

  /** the first row of what `index.search` returns: scores and ids side by
      side (an id of -1 marks an empty slot) */
  datatype Hits = Hits(distances: seq<int>, indices: seq<int>)

  /** a result dict of `search_similar` */
  datatype SearchResult = SearchResult(content: string, source: string, kind: string, similarity: int, chunkId: int)

  /** an entry of the answer's `links` list */
  datatype Link = Link(url: string, text: string)

  /** the loop keeps a hit when its id names a metadata entry and its score
      reaches the threshold, which is inclusive */
  predicate Kept(score: int, id: int, metadata: seq<StoredEntry>) {
    0 <= id < |metadata| && score >= SimilarityThreshold
  }

  function ResultOf(e: StoredEntry, score: int): SearchResult {
    SearchResult(e.text, e.source, e.kind, score, e.chunkId.GetOr(0))
  }

  /** the results the loop over `zip(distances, indices)` collects, in hit
      order; `zip` stops at the shorter list */
  function Candidates(distances: seq<int>, indices: seq<int>, metadata: seq<StoredEntry>): (r: seq<SearchResult>)
    ensures |r| <= Min(|distances|, |indices|)
    ensures forall k :: 0 <= k < |r| ==> r[k].similarity >= SimilarityThreshold
    decreases |distances|
  {
    var n := Min(|distances|, |indices|);
    if n == 0 then []
    else
      Candidates(distances[..n - 1], indices[..n - 1], metadata)
        + (if Kept(distances[n - 1], indices[n - 1], metadata)
           then [ResultOf(metadata[indices[n - 1]], distances[n - 1])] else [])
  }

  /** only the pairs `zip` forms matter */
  lemma CandidatesOfZipped(distances: seq<int>, indices: seq<int>, metadata: seq<StoredEntry>)
    ensures var n := Min(|distances|, |indices|);
      Candidates(distances, indices, metadata) == Candidates(distances[..n], indices[..n], metadata)
  {
    var n := Min(|distances|, |indices|);
    if n > 0 {
      assert distances[..n][..n - 1] == distances[..n - 1];
      assert indices[..n][..n - 1] == indices[..n - 1];
    }
  }

  /** a result is a candidate exactly when some hit with a valid id and a
      score at or above the threshold produced it from its metadata entry */
  lemma {:induction false} CandidatesMembers(distances: seq<int>, indices: seq<int>, metadata: seq<StoredEntry>, r: SearchResult)
    ensures r in Candidates(distances, indices, metadata) <==>
      exists k :: (0 <= k < Min(|distances|, |indices|) && Kept(distances[k], indices[k], metadata)
        && r == ResultOf(metadata[indices[k]], distances[k]))
    decreases |distances|
  {
    var n := Min(|distances|, |indices|);
    if n > 0 {
      var ds, ids := distances[..n - 1], indices[..n - 1];
      CandidatesMembers(ds, ids, metadata, r);
      assert Min(|ds|, |ids|) == n - 1;
      if r in Candidates(ds, ids, metadata) {
        var k :| 0 <= k < n - 1 && Kept(ds[k], ids[k], metadata) && r == ResultOf(metadata[ids[k]], ds[k]);
        assert ds[k] == distances[k] && ids[k] == indices[k];
      }
      if exists k :: (0 <= k < n && Kept(distances[k], indices[k], metadata)
          && r == ResultOf(metadata[indices[k]], distances[k])) {
        var k :| 0 <= k < n && Kept(distances[k], indices[k], metadata)
          && r == ResultOf(metadata[indices[k]], distances[k]);
        if k < n - 1 {
          assert ds[k] == distances[k] && ids[k] == indices[k];
        }
      }
    }
  }

  /** the sort key of `sort(key=similarity, reverse=True)`: Python's sort
      stays stable when reversed, so it is the stable ascending sort on the
      negated score */
  function NegSimilarity(r: SearchResult): int {
    -r.similarity
  }

  /** a prefix of the descending sort is drawn from the candidates */
  lemma RankedSubset(cands: seq<SearchResult>, topK: nat)
    ensures multiset(Take(SortBy(cands, NegSimilarity), topK)) <= multiset(cands)
  {
    var sorted := SortBy(cands, NegSimilarity);
    var top := Take(sorted, topK);
    assert sorted == top + sorted[|top|..];
    assert multiset(sorted) == multiset(top) + multiset(sorted[|top|..]);
  }

  /** a prefix of the descending sort is in non-increasing score order */
  lemma RankedDescending(cands: seq<SearchResult>, topK: nat)
    ensures var top := Take(SortBy(cands, NegSimilarity), topK);
      forall i, j :: 0 <= i < j < |top| ==> top[i].similarity >= top[j].similarity
  {
    var sorted := SortBy(cands, NegSimilarity);
    var top := Take(sorted, topK);
    forall i, j | 0 <= i < j < |top| ensures top[i].similarity >= top[j].similarity {
      assert top[i] == sorted[i] && top[j] == sorted[j];
      assert NegSimilarity(sorted[i]) <= NegSimilarity(sorted[j]);
    }
  }

  /** a prefix of the descending sort keeps the candidates' order among
      equal scores */
  lemma RankedStable(cands: seq<SearchResult>, topK: nat)
    ensures var top := Take(SortBy(cands, NegSimilarity), topK);
      forall s :: KeyClass(top, NegSimilarity, s) <= KeyClass(cands, NegSimilarity, s)
  {
    var sorted := SortBy(cands, NegSimilarity);
    var top := Take(sorted, topK);
    forall s ensures KeyClass(top, NegSimilarity, s) <= KeyClass(cands, NegSimilarity, s) {
      KeyClassOfPrefix(sorted, |top|, NegSimilarity, s);
      SortByStable(cands, NegSimilarity, s);
    }
  }

  /** the first `topK` of the candidates sorted by descending score keep
      the threshold, come in non-increasing score order, are drawn from the
      candidates, and keep the candidates' order among equal scores */
  lemma Ranked(cands: seq<SearchResult>, topK: nat)
    requires forall k :: 0 <= k < |cands| ==> cands[k].similarity >= SimilarityThreshold
    ensures var top := Take(SortBy(cands, NegSimilarity), topK);
      && multiset(top) <= multiset(cands)
      && (forall i :: 0 <= i < |top| ==> top[i].similarity >= SimilarityThreshold)
      && (forall i, j :: 0 <= i < j < |top| ==> top[i].similarity >= top[j].similarity)
      && (forall s :: KeyClass(top, NegSimilarity, s) <= KeyClass(cands, NegSimilarity, s))
  {
    var top := Take(SortBy(cands, NegSimilarity), topK);
    RankedSubset(cands, topK);
    forall i | 0 <= i < |top| ensures top[i].similarity >= SimilarityThreshold {
      assert top[i] in multiset(cands);
    }
    RankedDescending(cands, topK);
    RankedStable(cands, topK);
  }

  /** `search_similar(query_embedding, top_k)`: asks the index for
      `2 * top_k` hits, keeps the valid ones at or above the threshold,
      sorts them by descending score and returns the first `top_k` */
  method SearchSimilar(search: nat -> Hits, metadata: seq<StoredEntry>, topK: nat) returns (results: seq<SearchResult>)
    ensures var hits := search(topK * 2);
      results == Take(SortBy(Candidates(hits.distances, hits.indices, metadata), NegSimilarity), topK)
    ensures var hits := search(topK * 2);
      |results| == Min(topK, |Candidates(hits.distances, hits.indices, metadata)|)
    ensures var hits := search(topK * 2);
      multiset(results) <= multiset(Candidates(hits.distances, hits.indices, metadata))
    ensures forall i :: 0 <= i < |results| ==> results[i].similarity >= SimilarityThreshold
    ensures forall i, j :: 0 <= i < j < |results| ==> results[i].similarity >= results[j].similarity
    ensures var hits := search(topK * 2);
      forall s :: KeyClass(results, NegSimilarity, s) <= KeyClass(Candidates(hits.distances, hits.indices, metadata), NegSimilarity, s)
  {
    var hits := search(topK * 2);
    var distances, indices := hits.distances, hits.indices;
    var n := Min(|distances|, |indices|);
    var found: seq<SearchResult> := [];
    var i := 0;
    while i < n
      invariant 0 <= i <= n
      invariant found == Candidates(distances[..i], indices[..i], metadata)
    {
      var score, id := distances[i], indices[i];
      assert distances[..i + 1][..i] == distances[..i] && indices[..i + 1][..i] == indices[..i];
      if 0 <= id < |metadata| && score >= SimilarityThreshold {
        found := found + [ResultOf(metadata[id], score)];
      }
      i := i + 1;
    }
    assert distances[..i] == distances[..n] && indices[..i] == indices[..n];
    CandidatesOfZipped(distances, indices, metadata);
    var sorted := SortBy(found, NegSimilarity);
    results := Take(sorted, topK);
    Ranked(found, topK);
  }

  // ---------------------------------------------------------------------
  // The answer

  /** a value of the `sources_used` dict */
  datatype SourceInfo = SourceInfo(url: string, snippet: string)

  function SourceLabel(n: int): string {
    "[Source " + IntToDecimal(n) + "]:\n"
  }

  /** `context_parts`: chunk `i` under the label of source `i + 1` */
  function ContextParts(chunks: seq<SearchResult>): (r: seq<string>)
    ensures |r| == |chunks|
  {
    seq(|chunks|, i requires 0 <= i < |chunks| => SourceLabel(i + 1) + chunks[i].content + "\n")
  }

  function Context(chunks: seq<SearchResult>): string {
    Join(ContextParts(chunks), "\n")
  }

  /** the fixed text of the prompt around the context and the question */
  const PromptHead := "You are a helpful teaching assistant. Answer the student's question using ONLY the provided context below.\n\nContext:\n"
  const PromptMiddle := "\n\nQuestion: "
  const PromptTail := "\n\nInstructions:\n"
    + "1. Provide a clear, comprehensive answer based on the context\n"
    + "2. If the context doesn't contain enough information, say so\n"
    + "3. Reference specific sources when making claims (e.g., \"According to Source 1...\")\n"
    + "4. Be concise but thorough\n\n"
    + "Answer:"

  /** the prompt sent to the language model */
  function Prompt(question: string, context: string): string {
    PromptHead + context + PromptMiddle + question + PromptTail
  }

  /** the context holds every chunk under the label of its source number,
      counted from 1 in chunk order */
  lemma ContextCarries(chunks: seq<SearchResult>, i: nat)
    requires i < |chunks|
    ensures Contains(Context(chunks), SourceLabel(i + 1) + chunks[i].content)
  {
    var labelled := SourceLabel(i + 1) + chunks[i].content;
    JoinContains(ContextParts(chunks), "\n", i);
    assert ContextParts(chunks)[i] == labelled + "\n";
    ContainsFront(Context(chunks), labelled, "\n");
  }

  /** the prompt carries the question and all of the context */
  lemma PromptCarries(question: string, context: string, needle: string)
    requires Contains(context, needle)
    ensures Contains(Prompt(question, context), needle)
    ensures Contains(Prompt(question, context), question)
  {
    ContainsMiddle(PromptHead + context + PromptMiddle, question, PromptTail);
    ContainsAfter(PromptHead, context, needle);
    ContainsBefore(PromptHead + context, PromptMiddle + question + PromptTail, needle);
    assert Prompt(question, context) == PromptHead + context + (PromptMiddle + question + PromptTail);
  }

  /** `generate_answer(question, context_chunks)`: no chunks give the fixed
      answer and no links without calling the model; otherwise the model
      answers the numbered-context prompt and every chunk gives one link,
      in chunk order, to its source with the first 150 characters of its
      content. `prompt` is the model call made, if any. */
  method GenerateAnswer(question: string, chunks: seq<SearchResult>, generate: string -> string)
    returns (answer: string, links: seq<Link>, prompt: Option<string>)
    ensures chunks == [] ==> answer == NoInformationAnswer && links == [] && prompt == None
    ensures chunks != [] ==> prompt == Some(Prompt(question, Context(chunks))) && answer == generate(prompt.value)
    ensures |links| == |chunks|
    ensures forall i :: 0 <= i < |chunks| ==>
      links[i].url == chunks[i].source && links[i].text == Take(chunks[i].content, SnippetLength)
  {
    if chunks == [] {
      return NoInformationAnswer, [], None;
    }
    var parts: seq<string> := [];
    var sourceNums: seq<int> := [];
    var sources: map<int, SourceInfo> := map[];
    var i := 0;
    while i < |chunks|
      invariant 0 <= i <= |chunks|
      invariant parts == ContextParts(chunks)[..i]
      invariant |sourceNums| == i && forall k :: 0 <= k < i ==> sourceNums[k] == k + 1
      invariant forall n :: n in sources <==> 1 <= n <= i
      invariant forall n :: 1 <= n <= i ==>
        sources[n] == SourceInfo(chunks[n - 1].source, Take(chunks[n - 1].content, SnippetLength))
    {
      assert ContextParts(chunks)[..i + 1] == ContextParts(chunks)[..i] + [SourceLabel(i + 1) + chunks[i].content + "\n"];
      parts := parts + [SourceLabel(i + 1) + chunks[i].content + "\n"];
      if i + 1 !in sources {
        sourceNums := sourceNums + [i + 1];
      }
      sources := sources[i + 1 := SourceInfo(chunks[i].source, Take(chunks[i].content, SnippetLength))];
      i := i + 1;
    }
    assert parts == ContextParts(chunks);
    var context := Join(parts, "\n");
    prompt := Some(Prompt(question, context));
    answer := generate(prompt.value);
    links := [];
    var j := 0;
    while j < |sourceNums|
      invariant 0 <= j <= |sourceNums|
      invariant |links| == j
      invariant forall k :: 0 <= k < j ==>
        links[k].url == chunks[k].source && links[k].text == Take(chunks[k].content, SnippetLength)
    {
      assert sourceNums[j] == j + 1;
      var info := sources[sourceNums[j]];
      links := links + [Link(info.url, info.snippet)];
      j := j + 1;
    }
  }

  /** the `/query` handler with the embedding step folded into `search`:
      searches the top `TOP_K_RESULTS` and answers from them. When no hit
      survives the filter the fixed answer comes back with no links;
      otherwise the answer is the model's reply to the prompt built from the
      ranked results, and the links are those results' sources and snippets
      in rank order, each from a metadata entry some kept hit named */
  method QueryKnowledgeBase(question: string, search: nat -> Hits, metadata: seq<StoredEntry>,
                            generate: string -> string)
    returns (answer: string, links: seq<Link>)
    ensures var hits := search(TopKResults * 2);
      Candidates(hits.distances, hits.indices, metadata) == [] ==>
        answer == NoInformationAnswer && links == []
    ensures |links| <= TopKResults
    ensures var hits := search(TopKResults * 2);
      var top := Take(SortBy(Candidates(hits.distances, hits.indices, metadata), NegSimilarity), TopKResults);
      && |links| == |top|
      && (forall i :: 0 <= i < |top| ==> links[i] == Link(top[i].source, Take(top[i].content, SnippetLength)))
      && (top != [] ==> answer == generate(Prompt(question, Context(top))))
    ensures var hits := search(TopKResults * 2);
      forall i :: 0 <= i < |links| ==>
        exists k :: (0 <= k < Min(|hits.distances|, |hits.indices|)
          && Kept(hits.distances[k], hits.indices[k], metadata)
          && links[i].url == metadata[hits.indices[k]].source)
  {
    var results := SearchSimilar(search, metadata, TopKResults);
    var prompt;
    answer, links, prompt := GenerateAnswer(question, results, generate);
    ghost var hits := search(TopKResults * 2);
    forall i | 0 <= i < |links|
      ensures exists k :: (0 <= k < Min(|hits.distances|, |hits.indices|)
          && Kept(hits.distances[k], hits.indices[k], metadata)
          && links[i].url == metadata[hits.indices[k]].source)
    {
      RankedFromKeptHit(hits.distances, hits.indices, metadata, TopKResults, i);
    }
  }

  /** every ranked result is the entry of some kept hit */
  lemma RankedFromKeptHit(distances: seq<int>, indices: seq<int>, metadata: seq<StoredEntry>, topK: nat, i: nat)
    requires i < |Take(SortBy(Candidates(distances, indices, metadata), NegSimilarity), topK)|
    ensures exists k :: (0 <= k < Min(|distances|, |indices|)
      && Kept(distances[k], indices[k], metadata)
      && Take(SortBy(Candidates(distances, indices, metadata), NegSimilarity), topK)[i].source
         == metadata[indices[k]].source)
  {
    var cs := Candidates(distances, indices, metadata);
    var sorted := SortBy(cs, NegSimilarity);
    var top := Take(sorted, topK);
    assert top[i] == sorted[i];
    assert top[i] in multiset(sorted);
    CandidatesMembers(distances, indices, metadata, top[i]);
  }
}
