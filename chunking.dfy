/** `chunk_by_words` of the ingestion pipeline: the text is split into words
    and cut into windows of at most `maxWords` words, each window starting
    `maxWords - overlap` words after the previous one, and each window is
    joined back with single spaces. */
module Chunking {
  import opened Util
  import opened Text

  /** the chunk starting at word `start`: words `[start, min(start +
      maxWords, n))` joined by single spaces */
  function Window(words: seq<string>, start: nat, maxWords: nat): string
    requires start < |words|
  {
    Join(words[start..Min(start + maxWords, |words|)], " ")
  }

  /** the chunks produced from word position `start` on, as the `while`
      loop of `chunk_by_words` produces them: the window at `start`, then
      the rest from `start + step` */
  function ChunkFrom(words: seq<string>, start: nat, maxWords: nat, step: nat): seq<string>
    requires step > 0
    decreases |words| - start
  {
    if start >= |words| then []
    else [Window(words, start, maxWords)] + ChunkFrom(words, start + step, maxWords, step)
  }

  /** what `chunk_by_words(text, maxWords, overlap)` returns */
  function Chunks(text: string, maxWords: nat, overlap: nat): seq<string>
    requires overlap < maxWords
  {
    ChunkFrom(Words(text), 0, maxWords, maxWords - overlap)
  }

  /** the `while start < len(words)` loop of `chunk_by_words`; it only terminates
      because every round advances `start` by `maxWords - overlap > 0` */
  method ChunkByWords(text: string, maxWords: nat, overlap: nat) returns (chunks: seq<string>)
    requires overlap < maxWords
    ensures chunks == Chunks(text, maxWords, overlap)
  {
    var words := Words(text);
    var step := maxWords - overlap;
    chunks := [];
    var start := 0;
    while start < |words|
      invariant chunks + ChunkFrom(words, start, maxWords, step) == ChunkFrom(words, 0, maxWords, step)
      decreases |words| - start
    {
      var end := Min(start + maxWords, |words|);
      var chunk := Join(words[start..end], " ");
      ghost var rest := ChunkFrom(words, start + step, maxWords, step);
      assert ChunkFrom(words, start, maxWords, step) == [chunk] + rest;
      assert chunks + ([chunk] + rest) == (chunks + [chunk]) + rest;
      chunks := chunks + [chunk];
      start := start + step;
    }
    assert ChunkFrom(words, start, maxWords, step) == [];
    assert chunks + [] == chunks;
  }

  lemma {:induction false} ChunkFromEmpty(words: seq<string>, start: nat, maxWords: nat, step: nat)
    requires step > 0
    ensures ChunkFrom(words, start, maxWords, step) == [] <==> start >= |words|
  {
  }

  /** empty or whitespace-only text gives no chunks, any other text some */
  lemma ChunksEmptyIffBlank(text: string, maxWords: nat, overlap: nat)
    requires overlap < maxWords
    ensures Chunks(text, maxWords, overlap) == [] <==> Blank(text)
  {
    WordsEmptyIffBlank(text);
    ChunkFromEmpty(Words(text), 0, maxWords, maxWords - overlap);
  }

  /** `i * step`, built by repeated addition so that the recursive lemmas
      below stay within linear arithmetic */
  function Offset(i: nat, step: nat): nat
  {
    if i == 0 then 0 else Offset(i - 1, step) + step
  }

  lemma {:induction false} OffsetIsProduct(i: nat, step: nat)
    ensures Offset(i, step) == i * step
  {
    if i > 0 {
      OffsetIsProduct(i - 1, step);
      assert (i - 1) * step + step == i * step;
    }
  }

  lemma {:induction false} ChunkFromWindow(words: seq<string>, start: nat, maxWords: nat, step: nat, i: nat)
    requires step > 0
    requires i < |ChunkFrom(words, start, maxWords, step)|
    ensures start + Offset(i, step) < |words|
    ensures ChunkFrom(words, start, maxWords, step)[i] == Window(words, start + Offset(i, step), maxWords)
    decreases i
  {
    var cs := ChunkFrom(words, start, maxWords, step);
    assert start < |words|;
    if i > 0 {
      var rest := ChunkFrom(words, start + step, maxWords, step);
      assert cs == [cs[0]] + rest;
      assert cs[i] == rest[i - 1];
      ChunkFromWindow(words, start + step, maxWords, step, i - 1);
      assert Offset(i, step) == Offset(i - 1, step) + step;
    }
  }

  /** chunk `i` is words `[i*s, min(i*s + maxWords, n))` joined by single
      spaces, where `s = maxWords - overlap`, `n` is the word count and
      `i*s` is written `Offset(i, s)` */
  lemma ChunkWindow(text: string, maxWords: nat, overlap: nat, i: nat)
    requires overlap < maxWords
    requires i < |Chunks(text, maxWords, overlap)|
    ensures var words, lo := Words(text), Offset(i, maxWords - overlap);
      && lo < |words|
      && Chunks(text, maxWords, overlap)[i] == Join(words[lo..Min(lo + maxWords, |words|)], " ")
  {
    ChunkFromWindow(Words(text), 0, maxWords, maxWords - overlap, i);
  }

  lemma {:induction false} ChunkFromCount(words: seq<string>, start: nat, maxWords: nat, step: nat)
    requires step > 0
    ensures start + Offset(|ChunkFrom(words, start, maxWords, step)|, step) >= |words|
    ensures |ChunkFrom(words, start, maxWords, step)| > 0 ==>
      start + Offset(|ChunkFrom(words, start, maxWords, step)| - 1, step) < |words|
    decreases |words| - start
  {
    if start < |words| {
      var rest := ChunkFrom(words, start + step, maxWords, step);
      assert ChunkFrom(words, start, maxWords, step) == [Window(words, start, maxWords)] + rest;
      ChunkFromCount(words, start + step, maxWords, step);
      var c := |rest|;
      assert Offset(c + 1, step) == Offset(c, step) + step;
      if c > 0 {
        assert Offset(c, step) == Offset(c - 1, step) + step;
      }
    }
  }

  /** with `n` words and step `s`, there are `ceil(n / s)` chunks: the least
      `c` with `c * s >= n`; and the last chunk reaches the last word */
  lemma ChunkCount(text: string, maxWords: nat, overlap: nat)
    requires overlap < maxWords
    ensures var c, n, s := |Chunks(text, maxWords, overlap)|, |Words(text)|, maxWords - overlap;
      && c * s >= n
      && (c > 0 ==> (c - 1) * s < n)
      && (c > 0 ==> Min((c - 1) * s + maxWords, n) == n)
  {
    var c, n, s := |Chunks(text, maxWords, overlap)|, |Words(text)|, maxWords - overlap;
    ChunkFromCount(Words(text), 0, maxWords, s);
    OffsetIsProduct(c, s);
    if c > 0 {
      OffsetIsProduct(c - 1, s);
      assert Offset(c, s) == Offset(c - 1, s) + s;
    }
  }

  /** a window of words joined by spaces splits back into that window */
  lemma WindowWords(words: seq<string>, chunk: string, lo: nat, hi: nat, maxWords: nat)
    requires lo < hi <= |words| && hi <= lo + maxWords
    requires AllWords(words)
    requires chunk == Join(words[lo..hi], " ")
    ensures Words(chunk) == words[lo..hi]
    ensures 1 <= |Words(chunk)| <= maxWords
  {
    var window := words[lo..hi];
    forall k | 0 <= k < |window| ensures IsWord(window[k]) {
      assert window[k] == words[lo + k];
    }
    WordsOfJoin(window);
  }

  lemma ChunkFromWords(words: seq<string>, maxWords: nat, step: nat, i: nat)
    requires 0 < step <= maxWords
    requires AllWords(words)
    requires i < |ChunkFrom(words, 0, maxWords, step)|
    ensures Offset(i, step) < |words|
    ensures Words(ChunkFrom(words, 0, maxWords, step)[i]) == words[Offset(i, step)..Min(Offset(i, step) + maxWords, |words|)]
    ensures 1 <= |Words(ChunkFrom(words, 0, maxWords, step)[i])| <= maxWords
  {
    ChunkFromWindow(words, 0, maxWords, step, i);
    var lo := Offset(i, step);
    var hi := Min(lo + maxWords, |words|);
    assert lo < hi <= |words| && hi <= lo + maxWords;
    WindowWords(words, ChunkFrom(words, 0, maxWords, step)[i], lo, hi, maxWords);
  }

  /** every chunk splits back into exactly the words of its window */
  lemma {:induction false} ChunkWords(text: string, maxWords: nat, overlap: nat, i: nat)
    requires overlap < maxWords
    requires i < |Chunks(text, maxWords, overlap)|
    ensures var words, lo := Words(text), Offset(i, maxWords - overlap);
      && lo < |words|
      && Words(Chunks(text, maxWords, overlap)[i]) == words[lo..Min(lo + maxWords, |words|)]
  {
    var words := Words(text);
    var step: nat := maxWords - overlap;
    var cs := Chunks(text, maxWords, overlap);
    assert cs == ChunkFrom(words, 0, maxWords, step);
    ChunkFromWords(words, maxWords, step, i);
  }

  /** every chunk holds between 1 and `maxWords` words */
  lemma {:induction false} ChunkSize(text: string, maxWords: nat, overlap: nat, i: nat)
    requires overlap < maxWords
    requires i < |Chunks(text, maxWords, overlap)|
    ensures 1 <= |Words(Chunks(text, maxWords, overlap)[i])| <= maxWords
  {
    var words := Words(text);
    var step: nat := maxWords - overlap;
    var cs := Chunks(text, maxWords, overlap);
    assert cs == ChunkFrom(words, 0, maxWords, step);
    ChunkFromWords(words, maxWords, step, i);
  }

  lemma {:induction false} ChunkFromCovers(words: seq<string>, start: nat, maxWords: nat, step: nat, j: nat)
    requires 0 < step <= maxWords
    requires start <= j < |words|
    ensures exists i :: (0 <= i < |ChunkFrom(words, start, maxWords, step)|
      && start + Offset(i, step) <= j < start + Offset(i, step) + maxWords)
    decreases |words| - start
  {
    var c := ChunkFrom(words, start, maxWords, step);
    var rest := ChunkFrom(words, start + step, maxWords, step);
    assert c == [Window(words, start, maxWords)] + rest;
    if j < start + maxWords {
      assert Offset(0, step) == 0;
      assert 0 < |c| && start + Offset(0, step) <= j < start + Offset(0, step) + maxWords;
    } else {
      ChunkFromCovers(words, start + step, maxWords, step, j);
      var i' :| 0 <= i' < |rest|
        && start + step + Offset(i', step) <= j < start + step + Offset(i', step) + maxWords;
      assert Offset(i' + 1, step) == Offset(i', step) + step;
      assert 0 <= i' + 1 < |c|
        && start + Offset(i' + 1, step) <= j < start + Offset(i' + 1, step) + maxWords;
    }
  }

  /** every word of the text lies in the window of some chunk */
  lemma ChunksCoverWords(text: string, maxWords: nat, overlap: nat, j: nat)
    requires overlap < maxWords
    requires j < |Words(text)|
    ensures var s := maxWords - overlap;
      exists i :: (0 <= i < |Chunks(text, maxWords, overlap)|
        && i * s <= j < i * s + maxWords)
  {
    var s := maxWords - overlap;
    var words := Words(text);
    var cs := Chunks(text, maxWords, overlap);
    assert cs == ChunkFrom(words, 0, maxWords, s);
    ChunkFromCovers(words, 0, maxWords, s, j);
    var i :| 0 <= i < |cs| && Offset(i, s) <= j < Offset(i, s) + maxWords;
    OffsetIsProduct(i, s);
    assert 0 <= i < |cs| && i * s <= j < i * s + maxWords;
  }
}
