/** The ingestion side of embedding.py: course markdown files and forum
    posts are cut into chunks, each chunk gets a metadata record, and the
    chunks are embedded in batches into one vector index whose vectors stay
    in step with the metadata list. The embedding service is a function
    fixed for the index; the FAISS index is the sequence of its vectors,
    so `index.ntotal` is that sequence's length. */
module Ingestion {
  import opened Util
  import opened Text
  import opened Sorting
  import opened Chunking

  const MaxChunkWords: nat := 2000
  const ChunkOverlap: nat := 200
  const BatchSize: nat := 100

  const CourseKind := "course_content"
  const DiscourseKind := "discourse_post"
  const DiscourseTopicUrl := "https://discourse.onlinedegree.iitm.ac.in/t/"

  type Vector = seq<real>

  /** the topic fields a forum chunk's metadata carries */
  datatype TopicTag = TopicTag(id: int, title: Option<string>)

  /** the `meta` dict built for every chunk */
  datatype ChunkMeta = ChunkMeta(
    source: string,
    kind: string,
    topic: Option<TopicTag>,
    chunkId: nat,
    totalChunks: nat)

  /** an entry of the module-level `metadata` list: `{"text": t, **m}` */
  datatype IndexedChunk = IndexedChunk(text: string, meta: ChunkMeta)

  /** a file of the markdown folder, with the plain text its markdown renders to */
  datatype MarkdownFile = MarkdownFile(name: string, text: string)

  /** a post's `topic_title` key: absent, JSON null, or a string */
  datatype TitleField = Missing | Null | Text(text: string)

  /** the fields of a scraped forum post that ingestion reads */
  datatype Post = Post(topicId: int, topicTitle: TitleField, postNumber: int, content: string)

  /** the value of the `topics` dict: a title (`None` is Python's `None`)
      and the posts of one topic */
  datatype TopicGroup = TopicGroup(title: Option<string>, posts: seq<Post>)

  // ---------------------------------------------------------------------
  // Per-chunk metadata

  /** the metadata of the `k` chunks of one source: numbered 0..k-1, each
      knowing the total `k` */
  function SourceMetas(k: nat, source: string, kind: string, topic: Option<TopicTag>): (r: seq<ChunkMeta>)
    ensures |r| == k
  {
    seq(k, i requires 0 <= i < k => ChunkMeta(source, kind, topic, i, k))
  }

  /** the `for idx, chunk in enumerate(chunks)` loop: appends every chunk of
      one source to `texts` and its numbered metadata to `metas` */
  method AppendChunks(texts: seq<string>, metas: seq<ChunkMeta>, chunks: seq<string>,
                      source: string, kind: string, topic: Option<TopicTag>)
    returns (texts': seq<string>, metas': seq<ChunkMeta>)
    ensures texts' == texts + chunks
    ensures metas' == metas + SourceMetas(|chunks|, source, kind, topic)
    ensures |texts'| - |metas'| == |texts| - |metas|
    ensures forall i :: 0 <= i < |chunks| ==>
      metas'[|metas| + i] == ChunkMeta(source, kind, topic, i, |chunks|)
  {
    texts', metas' := texts, metas;
    var idx := 0;
    while idx < |chunks|
      invariant 0 <= idx <= |chunks|
      invariant texts' == texts + chunks[..idx]
      invariant metas' == metas + SourceMetas(|chunks|, source, kind, topic)[..idx]
    {
      var meta := ChunkMeta(source, kind, topic, idx, |chunks|);
      texts' := texts' + [chunks[idx]];
      metas' := metas' + [meta];
      idx := idx + 1;
    }
    assert chunks[..idx] == chunks;
  }

  // ---------------------------------------------------------------------
  // Markdown files

  /** `[f for f in listing if f.endswith(".md")]` */
  function MarkdownOnly(listing: seq<MarkdownFile>): (r: seq<MarkdownFile>)
    ensures forall k :: 0 <= k < |r| ==> EndsWith(r[k].name, ".md")
    ensures forall f :: f in r <==> f in listing && EndsWith(f.name, ".md")
  {
    if listing == [] then []
    else
      var init, last := listing[..|listing| - 1], listing[|listing| - 1];
      assert listing == init + [last];
      MarkdownOnly(init) + (if EndsWith(last.name, ".md") then [last] else [])
  }

  /** `f"Course: {fname.replace('.md', '')}"` */
  function CourseSource(name: string): string {
    "Course: " + RemoveAll(name, ".md")
  }

  function FileChunks(f: MarkdownFile): seq<string> {
    Chunks(f.text, MaxChunkWords, ChunkOverlap)
  }

  /** the chunk texts of the given files, file after file */
  function CourseTexts(files: seq<MarkdownFile>): seq<string> {
    if files == [] then []
    else CourseTexts(files[..|files| - 1]) + FileChunks(files[|files| - 1])
  }

  /** the chunk metadata of the given files, file after file */
  function CourseMetas(files: seq<MarkdownFile>): seq<ChunkMeta> {
    if files == [] then []
    else
      var f := files[|files| - 1];
      CourseMetas(files[..|files| - 1])
        + SourceMetas(|FileChunks(f)|, CourseSource(f.name), CourseKind, None)
  }

  /** `ingest_markdown_files`: `listing` is `None` when the folder does not
      exist, in which case nothing is produced */
  method IngestMarkdownFiles(listing: Option<seq<MarkdownFile>>)
    returns (texts: seq<string>, metas: seq<ChunkMeta>)
    ensures |texts| == |metas|
    ensures listing == None ==> texts == [] && metas == []
    ensures listing != None ==>
      && texts == CourseTexts(MarkdownOnly(listing.value))
      && metas == CourseMetas(MarkdownOnly(listing.value))
  {
    texts, metas := [], [];
    if listing == None {
      return;
    }
    var files := MarkdownOnly(listing.value);
    var k := 0;
    while k < |files|
      invariant 0 <= k <= |files|
      invariant |texts| == |metas|
      invariant texts == CourseTexts(files[..k]) && metas == CourseMetas(files[..k])
    {
      var f := files[k];
      var chunks := ChunkByWords(f.text, MaxChunkWords, ChunkOverlap);
      texts, metas := AppendChunks(texts, metas, chunks, CourseSource(f.name), CourseKind, None);
      assert files[..k + 1][..k] == files[..k];
      k := k + 1;
    }
    assert files[..k] == files;
  }

  // ---------------------------------------------------------------------
  // Forum posts grouped by topic

  function TopicIds(posts: seq<Post>): (ids: seq<int>)
    ensures |ids| == |posts|
    ensures forall k :: 0 <= k < |posts| ==> ids[k] == posts[k].topicId
  {
    if posts == [] then [] else TopicIds(posts[..|posts| - 1]) + [posts[|posts| - 1].topicId]
  }

  /** the distinct ids, each where it is first seen: the key order of a
      Python dict filled from `ids` */
  function Distinct(ids: seq<int>): (d: seq<int>)
    ensures forall t :: t in d <==> t in ids
    ensures forall i, j :: 0 <= i < j < |d| ==> d[i] != d[j]
  {
    if ids == [] then []
    else
      var d := Distinct(ids[..|ids| - 1]);
      var last := ids[|ids| - 1];
      assert forall t :: t in ids <==> t in ids[..|ids| - 1] || t == last by {
        assert ids == ids[..|ids| - 1] + [last];
      }
      if last in d then d else d + [last]
  }

  /** the position where `t` first occurs in `ids` */
  function FirstIndex(ids: seq<int>, t: int): (r: nat)
    requires t in ids
    ensures r < |ids| && ids[r] == t
    ensures forall k :: 0 <= k < r ==> ids[k] != t
  {
    var init := ids[..|ids| - 1];
    if t in init then FirstIndex(init, t) else |ids| - 1
  }

  /** the topics come out in the order in which their first post appears */
  lemma {:induction false} DistinctFirstSeen(ids: seq<int>)
    ensures forall i, j :: 0 <= i < j < |Distinct(ids)| ==>
      FirstIndex(ids, Distinct(ids)[i]) < FirstIndex(ids, Distinct(ids)[j])
  {
    if ids != [] {
      var init := ids[..|ids| - 1];
      var last := ids[|ids| - 1];
      var d0 := Distinct(init);
      var d := Distinct(ids);
      DistinctFirstSeen(init);
      forall i, j | 0 <= i < j < |d| ensures FirstIndex(ids, d[i]) < FirstIndex(ids, d[j]) {
        assert d[i] == d0[i] && d[i] in init;
        assert FirstIndex(ids, d[i]) == FirstIndex(init, d0[i]) < |init|;
        if j < |d0| {
          assert d[j] == d0[j] && d[j] in init;
          assert FirstIndex(ids, d[j]) == FirstIndex(init, d0[j]);
          assert FirstIndex(init, d0[i]) < FirstIndex(init, d0[j]);
        } else {
          assert d[j] == last && last !in init;
          assert FirstIndex(ids, d[j]) == |init|;
        }
      }
    }
  }

  /** the posts of `posts` whose topic is `t`, in their order */
  function PostsOf(posts: seq<Post>, t: int): (r: seq<Post>)
    ensures forall p :: p in r <==> p in posts && p.topicId == t
  {
    if posts == [] then []
    else
      var last := posts[|posts| - 1];
      assert posts == posts[..|posts| - 1] + [last];
      PostsOf(posts[..|posts| - 1], t) + (if last.topicId == t then [last] else [])
  }

  /** `post.get("topic_title", "N/A")` */
  function TitleOf(p: Post): Option<string> {
    match p.topicTitle
    case Missing => Some("N/A")
    case Null => None
    case Text(s) => Some(s)
  }

  /** the `topics[t]` entry the grouping loop builds: the title of the
      first post seen (default "N/A") and all posts of the topic */
  function GroupOf(posts: seq<Post>, t: int): TopicGroup {
    var ps := PostsOf(posts, t);
    TopicGroup(if ps == [] then Some("N/A") else TitleOf(ps[0]), ps)
  }

  lemma PostsOfAbsent(posts: seq<Post>, t: int)
    requires t !in TopicIds(posts)
    ensures PostsOf(posts, t) == []
  {
  }

  /** the `topics` dict the grouping loop has built after `posts`: the
      post's entry is created with its topic title (default "N/A") when the
      topic is new, and the post is appended to it */
  function GroupMap(posts: seq<Post>): map<int, TopicGroup>
  {
    if posts == [] then map[]
    else AddPost(GroupMap(posts[..|posts| - 1]), posts[|posts| - 1])
  }

  /** one round of the grouping loop on the dict `m` */
  function AddPost(m: map<int, TopicGroup>, post: Post): map<int, TopicGroup>
  {
    var t := post.topicId;
    var entry := if t in m then m[t] else TopicGroup(TitleOf(post), []);
    m[t := entry.(posts := entry.posts + [post])]
  }

  /** how the key order and the dict grow by one post */
  lemma GroupStep(posts: seq<Post>, i: nat)
    requires i < |posts|
    ensures Distinct(TopicIds(posts[..i + 1])) ==
      if posts[i].topicId in Distinct(TopicIds(posts[..i])) then Distinct(TopicIds(posts[..i]))
      else Distinct(TopicIds(posts[..i])) + [posts[i].topicId]
    ensures GroupMap(posts[..i + 1]) == AddPost(GroupMap(posts[..i]), posts[i])
  {
    ghost var next := posts[..i + 1];
    assert next[..|next| - 1] == posts[..i];
    assert TopicIds(next)[..|next| - 1] == TopicIds(posts[..i]);
  }

  /** the dict holds exactly the topics that occur, and each entry is the
      topic's first title with all of the topic's posts in order */
  lemma {:induction false} GroupMapIsGroupOf(posts: seq<Post>, t: int)
    ensures t in GroupMap(posts) <==> t in TopicIds(posts)
    ensures t in GroupMap(posts) ==> GroupMap(posts)[t] == GroupOf(posts, t) && GroupOf(posts, t).posts != []
    decreases |posts|
  {
    if posts != [] {
      var init := posts[..|posts| - 1];
      var last := posts[|posts| - 1];
      GroupMapIsGroupOf(init, t);
      assert TopicIds(posts) == TopicIds(init) + [last.topicId];
      if t == last.topicId && t !in GroupMap(init) {
        PostsOfAbsent(init, t);
      }
    }
  }

  /** the grouping loop of `ingest_discourse_json`; `order` is the key
      order of the `topics` dict */
  method GroupByTopic(posts: seq<Post>) returns (order: seq<int>, topics: map<int, TopicGroup>)
    ensures order == Distinct(TopicIds(posts))
    ensures forall t :: t in topics <==> t in order
    ensures forall t :: t in topics ==> topics[t] == GroupOf(posts, t) && topics[t].posts != []
  {
    order, topics := [], map[];
    var i := 0;
    while i < |posts|
      invariant 0 <= i <= |posts|
      invariant order == Distinct(TopicIds(posts[..i]))
      invariant topics == GroupMap(posts[..i])
    {
      var post := posts[i];
      var t := post.topicId;
      GroupStep(posts, i);
      GroupMapIsGroupOf(posts[..i], t);
      ghost var before := topics;
      if t !in topics {
        topics := topics[t := TopicGroup(TitleOf(post), [])];
        order := order + [t];
      }
      topics := topics[t := topics[t].(posts := topics[t].posts + [post])];
      assert topics == AddPost(before, post);
      i := i + 1;
    }
    assert posts[..i] == posts;
    GroupMapAll(posts);
  }

  lemma GroupMapAll(posts: seq<Post>)
    ensures forall t :: t in GroupMap(posts) <==> t in Distinct(TopicIds(posts))
    ensures forall t :: t in GroupMap(posts) ==> GroupMap(posts)[t] == GroupOf(posts, t) && GroupOf(posts, t).posts != []
  {
    forall t | true
      ensures t in GroupMap(posts) <==> t in Distinct(TopicIds(posts))
      ensures t in GroupMap(posts) ==> GroupMap(posts)[t] == GroupOf(posts, t) && GroupOf(posts, t).posts != []
    {
      GroupMapIsGroupOf(posts, t);
    }
  }

  function PostNumberOf(p: Post): int {
    p.postNumber
  }

  /** `f"Post #{p['post_number']}: {p['content']}"` for every post */
  function PostLines(posts: seq<Post>): (r: seq<string>)
    ensures |r| == |posts|
  {
    seq(|posts|, i requires 0 <= i < |posts| => "Post #" + IntToDecimal(posts[i].postNumber) + ": " + posts[i].content)
  }

  /** the combined text of one topic: its title, then its posts sorted by
      post number, separated by rules */
  function TopicText(g: TopicGroup): string {
    "Topic: " + g.title.GetOr("None") + "\n\n" + Join(PostLines(SortBy(g.posts, PostNumberOf)), "\n\n---\n\n")
  }

  function DiscourseSource(t: int): string {
    DiscourseTopicUrl + IntToDecimal(t)
  }

  function TopicChunks(posts: seq<Post>, t: int): seq<string> {
    Chunks(TopicText(GroupOf(posts, t)), MaxChunkWords, ChunkOverlap)
  }

  /** the chunk texts of the topics in `order`, topic after topic */
  function DiscourseTexts(posts: seq<Post>, order: seq<int>): seq<string> {
    if order == [] then []
    else DiscourseTexts(posts, order[..|order| - 1]) + TopicChunks(posts, order[|order| - 1])
  }

  /** the chunk metadata of the topics in `order`, topic after topic */
  function DiscourseMetas(posts: seq<Post>, order: seq<int>): seq<ChunkMeta> {
    if order == [] then []
    else
      var t := order[|order| - 1];
      DiscourseMetas(posts, order[..|order| - 1])
        + SourceMetas(|TopicChunks(posts, t)|, DiscourseSource(t), DiscourseKind,
                      Some(TopicTag(t, GroupOf(posts, t).title)))
  }

  lemma DiscourseStep(posts: seq<Post>, order: seq<int>, k: nat)
    requires k < |order|
    ensures DiscourseTexts(posts, order[..k + 1]) == DiscourseTexts(posts, order[..k]) + TopicChunks(posts, order[k])
    ensures DiscourseMetas(posts, order[..k + 1]) == DiscourseMetas(posts, order[..k])
      + SourceMetas(|TopicChunks(posts, order[k])|, DiscourseSource(order[k]), DiscourseKind,
                    Some(TopicTag(order[k], GroupOf(posts, order[k]).title)))
  {
    assert order[..k + 1][..k] == order[..k];
  }

  /** `ingest_discourse_json`: `postsFile` is `None` when the posts file
      does not exist, in which case nothing is produced */
  method IngestDiscourseJson(postsFile: Option<seq<Post>>)
    returns (texts: seq<string>, metas: seq<ChunkMeta>)
    ensures |texts| == |metas|
    ensures postsFile == None ==> texts == [] && metas == []
    ensures postsFile != None ==>
      var posts := postsFile.value;
      && texts == DiscourseTexts(posts, Distinct(TopicIds(posts)))
      && metas == DiscourseMetas(posts, Distinct(TopicIds(posts)))
  {
    texts, metas := [], [];
    if postsFile == None {
      return;
    }
    var posts := postsFile.value;
    var order, topics := GroupByTopic(posts);
    var k := 0;
    while k < |order|
      invariant 0 <= k <= |order|
      invariant |texts| == |metas|
      invariant texts == DiscourseTexts(posts, order[..k])
      invariant metas == DiscourseMetas(posts, order[..k])
    {
      var t := order[k];
      var group := topics[t];
      var chunks := ChunkByWords(TopicText(group), MaxChunkWords, ChunkOverlap);
      texts, metas := AppendChunks(texts, metas, chunks, DiscourseSource(t), DiscourseKind,
                                   Some(TopicTag(t, group.title)));
      DiscourseStep(posts, order, k);
      k := k + 1;
    }
    assert order[..k] == order;
  }

  // ---------------------------------------------------------------------
  // Chunk numbering

  /** every entry's `chunk_id` lies below its `total_chunks` */
  predicate WellNumbered(metas: seq<ChunkMeta>) {
    forall i :: 0 <= i < |metas| ==> metas[i].chunkId < metas[i].totalChunks
  }

  lemma WellNumberedAppend(metas: seq<ChunkMeta>, k: nat, source: string, kind: string, topic: Option<TopicTag>)
    requires WellNumbered(metas)
    ensures WellNumbered(metas + SourceMetas(k, source, kind, topic))
  {
    var all := metas + SourceMetas(k, source, kind, topic);
    forall i | 0 <= i < |all| ensures all[i].chunkId < all[i].totalChunks {
      if i >= |metas| {
        assert all[i] == SourceMetas(k, source, kind, topic)[i - |metas|];
      }
    }
  }

  /** the markdown side: one metadata entry per chunk, each numbered below
      its file's chunk total */
  lemma {:induction false} CourseNumbering(files: seq<MarkdownFile>)
    ensures |CourseMetas(files)| == |CourseTexts(files)|
    ensures WellNumbered(CourseMetas(files))
  {
    if files != [] {
      var init := files[..|files| - 1];
      var f := files[|files| - 1];
      CourseNumbering(init);
      WellNumberedAppend(CourseMetas(init), |FileChunks(f)|, CourseSource(f.name), CourseKind, None);
    }
  }

  /** the forum side: one metadata entry per chunk, each numbered below its
      topic's chunk total */
  lemma {:induction false} DiscourseNumbering(posts: seq<Post>, order: seq<int>)
    ensures |DiscourseMetas(posts, order)| == |DiscourseTexts(posts, order)|
    ensures WellNumbered(DiscourseMetas(posts, order))
  {
    if order != [] {
      var init := order[..|order| - 1];
      var t := order[|order| - 1];
      DiscourseNumbering(posts, init);
      WellNumberedAppend(DiscourseMetas(posts, init), |TopicChunks(posts, t)|, DiscourseSource(t), DiscourseKind,
                         Some(TopicTag(t, GroupOf(posts, t).title)));
    }
  }

  // ---------------------------------------------------------------------
  // The vector index and the metadata list

  /** `zip(texts, metas)` turned into metadata entries; `zip` stops at the
      shorter list */
  function Entries(texts: seq<string>, metas: seq<ChunkMeta>): (r: seq<IndexedChunk>)
    ensures |r| == Min(|texts|, |metas|)
  {
    seq(Min(|texts|, |metas|), i requires 0 <= i < Min(|texts|, |metas|) => IndexedChunk(texts[i], metas[i]))
  }

  /** the module-level `index` and `metadata` of embedding.py */
  class VectorIndex {
    const embed: string -> Vector
    var vectors: seq<Vector>
    var metadata: seq<IndexedChunk>

    /** `index.ntotal` */
    function NTotal(): nat
      reads this
    {
      |vectors|
    }

    /** vector `i` is the embedding of metadata entry `i`'s text, and there
        are as many vectors as entries */
    ghost predicate InSync()
      reads this
    {
      && |vectors| == |metadata|
      && forall i :: 0 <= i < |vectors| ==> vectors[i] == embed(metadata[i].text)
    }

    ghost function Embedded(texts: seq<string>): (r: seq<Vector>)
      ensures |r| == |texts|
    {
      seq(|texts|, i requires 0 <= i < |texts| => embed(texts[i]))
    }

    constructor (embed: string -> Vector)
      ensures this.embed == embed
      ensures vectors == [] && metadata == []
      ensures InSync()
    {
      this.embed := embed;
      vectors := [];
      metadata := [];
    }

    /** `index_batch`: embeds every text, adds the vectors to the index and
        the zipped entries to the metadata */
    method IndexBatch(texts: seq<string>, metas: seq<ChunkMeta>)
      modifies this
      ensures vectors == old(vectors) + Embedded(texts)
      ensures metadata == old(metadata) + Entries(texts, metas)
      ensures NTotal() == old(NTotal()) + |texts|
      ensures |texts| == |metas| && old(InSync()) ==> InSync()
    {
      var embs: seq<Vector> := [];
      var i := 0;
      while i < |texts|
        invariant 0 <= i <= |texts|
        invariant embs == Embedded(texts[..i])
      {
        embs := embs + [embed(texts[i])];
        i := i + 1;
      }
      assert texts[..i] == texts;
      vectors := vectors + embs;
      metadata := metadata + Entries(texts, metas);
    }

    /** the batch loop of `main`: slices of at most `BatchSize` texts, in
        order, are indexed one after another; the ghost `batches` records
        the slices visited */
    method IndexInBatches(allTexts: seq<string>, allMetas: seq<ChunkMeta>) returns (ghost batches: seq<seq<string>>)
      requires |allTexts| == |allMetas|
      modifies this
      ensures Flatten(batches) == allTexts
      ensures forall k :: 0 <= k < |batches| ==> 1 <= |batches[k]| <= BatchSize
      ensures vectors == old(vectors) + Embedded(allTexts)
      ensures metadata == old(metadata) + Entries(allTexts, allMetas)
      ensures old(InSync()) ==> InSync()
    {
      batches := [];
      var i := 0;
      while i < |allTexts|
        invariant 0 <= i <= |allTexts|
        invariant Flatten(batches) == allTexts[..i]
        invariant forall k :: 0 <= k < |batches| ==> 1 <= |batches[k]| <= BatchSize
        invariant vectors == old(vectors) + Embedded(allTexts[..i])
        invariant metadata == old(metadata) + Entries(allTexts[..i], allMetas[..i])
        invariant old(InSync()) ==> InSync()
      {
        var end := Min(i + BatchSize, |allTexts|);
        var batchTexts := allTexts[i..end];
        var batchMetas := allMetas[i..end];
        IndexBatch(batchTexts, batchMetas);
        FlattenAppend(batches, batchTexts);
        assert allTexts[..i] + batchTexts == allTexts[..end];
        assert Embedded(allTexts[..i]) + Embedded(batchTexts) == Embedded(allTexts[..end]);
        assert Entries(allTexts[..i], allMetas[..i]) + Entries(batchTexts, batchMetas)
            == Entries(allTexts[..end], allMetas[..end]);
        batches := batches + [batchTexts];
        i := end;
      }
      assert allTexts[..i] == allTexts && allMetas[..i] == allMetas;
    }

    /** `main` without its file output: ingests the markdown files and the
        forum posts, stops if there is nothing, and otherwise indexes all
        chunks in batches */
    method RunIngestion(listing: Option<seq<MarkdownFile>>, postsFile: Option<seq<Post>>)
      returns (ghost batches: seq<seq<string>>)
      modifies this
      ensures var mdTexts := if listing == None then [] else CourseTexts(MarkdownOnly(listing.value));
              var mdMetas := if listing == None then [] else CourseMetas(MarkdownOnly(listing.value));
              var dTexts := if postsFile == None then [] else DiscourseTexts(postsFile.value, Distinct(TopicIds(postsFile.value)));
              var dMetas := if postsFile == None then [] else DiscourseMetas(postsFile.value, Distinct(TopicIds(postsFile.value)));
              && Flatten(batches) == mdTexts + dTexts
              && vectors == old(vectors) + Embedded(mdTexts + dTexts)
              && metadata == old(metadata) + Entries(mdTexts + dTexts, mdMetas + dMetas)
      ensures forall k :: 0 <= k < |batches| ==> 1 <= |batches[k]| <= BatchSize
      ensures old(InSync()) ==> InSync()
    {
      var mdTexts, mdMetas := IngestMarkdownFiles(listing);
      var dTexts, dMetas := IngestDiscourseJson(postsFile);
      var allTexts := mdTexts + dTexts;
      var allMetas := mdMetas + dMetas;
      if allTexts == [] {
        batches := [];
        assert Entries(allTexts, allMetas) == [];
        assert vectors + Embedded(allTexts) == vectors;
        assert metadata + Entries(allTexts, allMetas) == metadata;
        return;
      }
      batches := IndexInBatches(allTexts, allMetas);
    }
  }
}
