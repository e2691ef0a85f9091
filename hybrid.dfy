/**
 * `HybridChunker`: hierarchical chunks, then every chunk over the token budget is split into
 * greedily packed runs of words, then adjacent peers (same headings and caption) are merged
 * while the merged text stays within the budget, and the merged list is re-indexed.
 */
module Hybrid {
  import opened Wrappers
  import opened Text
  import opened Node
  import opened Document
  import opened ChunkMeta
  import opened ChunkBase
  import opened Tokenizers
  import Hierarchical

  /** The texts of a sequence of chunks, in order. */
  function Texts(cs: seq<BaseChunk>): (ts: seq<string>)
    ensures |ts| == |cs|
  {
    if cs == [] then [] else [cs[0].text] + Texts(cs[1..])
  }

  lemma {:induction false} TextsAppend(a: seq<BaseChunk>, b: seq<BaseChunk>)
    ensures Texts(a + b) == Texts(a) + Texts(b)
  {
    if a == [] {
      assert a + b == b;
    } else {
      assert (a + b)[1..] == a[1..] + b;
      TextsAppend(a[1..], b);
    }
  }

  lemma {:induction false} TextsIndex(cs: seq<BaseChunk>, i: nat)
    requires i < |cs|
    ensures Texts(cs)[i] == cs[i].text
  {
    if i > 0 {
      TextsIndex(cs[1..], i - 1);
    }
  }

  /** `cur` as the start of a word list: nothing when empty. */
  function Lead(cur: string): seq<string>
  {
    if cur == [] then [] else [cur]
  }

  /** Two chunks are peers when their headings and captions agree. */
  predicate Peers(a: BaseChunk, b: BaseChunk)
  {
    a.meta.headings == b.meta.headings && a.meta.caption == b.meta.caption
  }

  /**
   * A piece cut from a chunk with metadata `meta`: same document, headings and caption, the
   * given start and index, and an end `len()` bytes after the start.
   */
  function Piece(text: string, meta: ChunkMetadata, start: nat, index: nat): BaseChunk
  {
    BaseChunk(text, ChunkMetadata(meta.docName, meta.headings, meta.caption, start, start + ByteLen(text), index))
  }

  /**
   * Pieces laid out as `split_oversized_chunk` cuts them from a chunk with metadata `meta`:
   * metadata copied, indices `index`, `index + 1`, ..., the first starting at `start`, each
   * ending `len()` bytes after its start, and each next one starting one byte further on.
   */
  predicate LaidOut(ps: seq<BaseChunk>, meta: ChunkMetadata, start: nat, index: nat)
  {
    && (ps != [] ==> ps[0].meta.startOffset == start)
    && (forall k | 0 <= k < |ps| ::
          && ps[k].meta.docName == meta.docName
          && ps[k].meta.headings == meta.headings
          && ps[k].meta.caption == meta.caption
          && ps[k].meta.index == index + k
          && ps[k].meta.endOffset == ps[k].meta.startOffset + ByteLen(ps[k].text))
    && (forall k | 0 < k < |ps| :: ps[k].meta.startOffset == ps[k - 1].meta.endOffset + 1)
  }

  lemma LaidOutCons(p: BaseChunk, tail: seq<BaseChunk>, meta: ChunkMetadata, start: nat, index: nat)
    requires p == Piece(p.text, meta, start, index)
    requires LaidOut(tail, meta, start + ByteLen(p.text) + 1, index + 1)
    ensures LaidOut([p] + tail, meta, start, index)
  {
    var ps := [p] + tail;
    forall k | 0 < k < |ps|
      ensures ps[k].meta.index == index + k
      ensures ps[k].meta.startOffset == ps[k - 1].meta.endOffset + 1
    {
      assert ps[k] == tail[k - 1];
    }
  }

  /** Without its first piece, a laid-out run is laid out from one byte past that piece's end. */
  lemma LaidOutTail(ps: seq<BaseChunk>, meta: ChunkMetadata, start: nat, index: nat)
    requires |ps| > 1 && LaidOut(ps, meta, start, index)
    ensures LaidOut(ps[1..], meta, ps[0].meta.endOffset + 1, index + 1)
  {
    var tail := ps[1..];
    forall k | 0 < k < |tail|
      ensures tail[k].meta.startOffset == tail[k - 1].meta.endOffset + 1
    {
      assert tail[k] == ps[k + 1];
    }
  }

  /** The last of a laid-out run of pieces ends as far from the first start as their joined text is long. */
  lemma {:induction false} LaidOutSpan(ps: seq<BaseChunk>, meta: ChunkMetadata, start: nat, index: nat)
    requires ps != [] && LaidOut(ps, meta, start, index)
    ensures ps[|ps| - 1].meta.endOffset == start + ByteLen(Join(Texts(ps)))
  {
    if |ps| > 1 {
      var tail := ps[1..];
      LaidOutTail(ps, meta, start, index);
      LaidOutSpan(tail, meta, ps[0].meta.endOffset + 1, index + 1);
      assert ps[|ps| - 1] == tail[|tail| - 1];
      assert Texts(ps) == [ps[0].text] + Texts(tail);
      JoinConsByteLen(ps[0].text, Texts(tail));
    } else {
      assert Texts(ps) == [ps[0].text];
    }
  }

  lemma NotBlankPrefix(a: string, b: string)
    requires !IsBlank(a)
    ensures !IsBlank(a + b)
  {
    var i :| 0 <= i < |a| && !IsWhitespace(a[i]);
    assert (a + b)[i] == a[i];
  }

  lemma WordNotBlank(w: string)
    requires IsWord(w)
    ensures !IsBlank(w)
  {
    assert !IsWhitespace(w[0]);
  }

  /** Joining the first two strings of a list with a space does not change the list's join. */
  lemma JoinFirstTwo(a: string, b: string, rest: seq<string>)
    ensures Join([a + " " + b] + rest) == Join([a, b] + rest)
  {
    if rest == [] {
      assert [a + " " + b] + rest == [a + " " + b];
      assert ([a, b] + rest)[1..] == [b];
    } else {
      JoinAppend([a + " " + b], rest);
      JoinAppend([a, b], rest);
      assert [a, b][1..] == [b];
    }
  }

  /** `prev` after absorbing the next chunk `c`: texts joined by a space, `c`'s end offset. */
  function Absorb(prev: BaseChunk, c: BaseChunk): BaseChunk
  {
    BaseChunk(prev.text + " " + c.text, prev.meta.(endOffset := c.meta.endOffset))
  }

  /**
   * The chunk a run of merged chunks becomes: their texts joined by single spaces, the first
   * one's metadata and the last one's end offset.
   */
  function Combine(g: seq<BaseChunk>): BaseChunk
    requires g != []
  {
    BaseChunk(Join(Texts(g)), g[0].meta.(endOffset := g[|g| - 1].meta.endOffset))
  }

  function CombineAll(gs: seq<seq<BaseChunk>>): (cs: seq<BaseChunk>)
    requires forall i | 0 <= i < |gs| :: gs[i] != []
    ensures |cs| == |gs|
  {
    if gs == [] then [] else [Combine(gs[0])] + CombineAll(gs[1..])
  }

  lemma {:induction false} CombineAllIndex(gs: seq<seq<BaseChunk>>, i: nat)
    requires forall i | 0 <= i < |gs| :: gs[i] != []
    requires i < |gs|
    ensures CombineAll(gs)[i] == Combine(gs[i])
  {
    if i > 0 {
      CombineAllIndex(gs[1..], i - 1);
    }
  }

  /** A single chunk is its own run. */
  lemma CombineSingle(c: BaseChunk)
    ensures Combine([c]) == c
  {
    assert Texts([c]) == [c.text];
  }

  /** Absorbing the next chunk into a run's chunk is combining the longer run. */
  lemma CombineAbsorb(g: seq<BaseChunk>, c: BaseChunk)
    requires g != []
    ensures Absorb(Combine(g), c) == Combine(g + [c])
  {
    TextsAppend(g, [c]);
    assert Texts([c]) == [c.text];
    JoinAppend(Texts(g), [c.text]);
    assert (g + [c])[0] == g[0];
  }

  /** `c` with index `i`, all else unchanged. */
  function WithIndex(c: BaseChunk, i: nat): BaseChunk
  {
    c.(meta := c.meta.(index := i))
  }

  /**
   * The re-indexing loop: the same chunks, numbered 0, 1, ... in order.
   */
  function Reindexed(cs: seq<BaseChunk>): (r: seq<BaseChunk>)
    ensures |r| == |cs| && SequentiallyIndexed(r)
    ensures forall i | 0 <= i < |cs| :: r[i] == WithIndex(cs[i], i)
  {
    seq(|cs|, i requires 0 <= i < |cs| => WithIndex(cs[i], i))
  }

  lemma TextsReindexed(cs: seq<BaseChunk>)
    ensures Texts(Reindexed(cs)) == Texts(cs)
  {
    var r := Reindexed(cs);
    forall i | 0 <= i < |cs|
      ensures Texts(r)[i] == Texts(cs)[i]
    {
      TextsIndex(r, i);
      TextsIndex(cs, i);
    }
  }

  /** All chunks in a run are peers of its first. */
  predicate PeerRun(g: seq<BaseChunk>)
  {
    g != [] && forall k | 0 <= k < |g| :: Peers(g[0], g[k])
  }

  /** The words of each chunk's text, one chunk after the other. */
  function AllWords(cs: seq<BaseChunk>): seq<string>
  {
    if cs == [] then [] else Words(cs[0].text) + AllWords(cs[1..])
  }

  lemma {:induction false} AllWordsAppend(a: seq<BaseChunk>, b: seq<BaseChunk>)
    ensures AllWords(a + b) == AllWords(a) + AllWords(b)
  {
    if a == [] {
      assert a + b == b;
    } else {
      assert (a + b)[1..] == a[1..] + b;
      AllWordsAppend(a[1..], b);
      ConcatAssoc(Words(a[0].text), AllWords(a[1..]), AllWords(b));
    }
  }

  /** The words of the chunks' texts joined with spaces are the words of each chunk in turn. */
  lemma {:induction false} WordsOfJoinedTexts(cs: seq<BaseChunk>)
    ensures Words(Join(Texts(cs))) == AllWords(cs)
  {
    if |cs| == 1 {
      assert Texts(cs) == [cs[0].text];
      assert AllWords(cs) == Words(cs[0].text) + AllWords([]);
    } else if |cs| > 1 {
      var ts := Texts(cs);
      assert ts == [cs[0].text] + Texts(cs[1..]);
      assert Join(ts) == cs[0].text + " " + Join(Texts(cs[1..]));
      WordsOfSpaced(cs[0].text, Join(Texts(cs[1..])));
      WordsOfJoinedTexts(cs[1..]);
    }
  }

  /** No chunk carries headings or a caption. */
  predicate ContextFree(cs: seq<BaseChunk>)
  {
    forall k | 0 <= k < |cs| :: cs[k].meta.headings == [] && cs[k].meta.caption == None
  }

  lemma ContextFreeAppend(a: seq<BaseChunk>, b: seq<BaseChunk>)
    requires ContextFree(a) && ContextFree(b)
    ensures ContextFree(a + b)
  {
    forall k | 0 <= k < |a + b|
      ensures (a + b)[k].meta.headings == [] && (a + b)[k].meta.caption == None
    {
      if k >= |a| {
        assert (a + b)[k] == b[k - |a|];
      }
    }
  }

  /** Every chunk has non-blank text and carries the document name `docName`. */
  predicate Sound(cs: seq<BaseChunk>, docName: string)
  {
    forall k | 0 <= k < |cs| :: !IsBlank(cs[k].text) && cs[k].meta.docName == docName
  }

  /** Every chunk ends no earlier than it starts, and each chunk ends before the next one starts. */
  predicate Ordered(cs: seq<BaseChunk>)
  {
    && (forall k | 0 <= k < |cs| :: cs[k].meta.WellFormed())
    && (forall k | 0 < k < |cs| :: cs[k - 1].meta.endOffset < cs[k].meta.startOffset)
  }

  /** Every chunk's offsets leave room for its text's bytes. */
  predicate Covering(cs: seq<BaseChunk>)
  {
    forall k | 0 <= k < |cs| :: cs[k].meta.startOffset + ByteLen(cs[k].text) <= cs[k].meta.endOffset
  }

  lemma SoundAppend(a: seq<BaseChunk>, b: seq<BaseChunk>, docName: string)
    requires Sound(a, docName) && Sound(b, docName)
    ensures Sound(a + b, docName)
  {
    forall k | 0 <= k < |a + b|
      ensures !IsBlank((a + b)[k].text) && (a + b)[k].meta.docName == docName
    {
      if k >= |a| {
        assert (a + b)[k] == b[k - |a|];
      }
    }
  }

  /** Two ordered sequences, the first ending before the second starts, concatenate to an ordered one. */
  lemma OrderedAppend(a: seq<BaseChunk>, b: seq<BaseChunk>)
    requires Ordered(a) && Ordered(b)
    requires a != [] && b != [] ==> a[|a| - 1].meta.endOffset < b[0].meta.startOffset
    ensures Ordered(a + b)
  {
    var ab := a + b;
    forall k | 0 <= k < |ab|
      ensures ab[k].meta.WellFormed()
    {
      if k >= |a| {
        assert ab[k] == b[k - |a|];
      }
    }
    forall k | 0 < k < |ab|
      ensures ab[k - 1].meta.endOffset < ab[k].meta.startOffset
    {
      if k > |a| {
        assert ab[k] == b[k - |a|] && ab[k - 1] == b[k - 1 - |a|];
      } else if k == |a| {
        assert ab[k] == b[0] && ab[k - 1] == a[|a| - 1];
      }
    }
  }

  lemma OrderedTail(cs: seq<BaseChunk>)
    requires cs != [] && Ordered(cs)
    ensures Ordered(cs[1..])
  {
    var tail := cs[1..];
    forall k | 0 < k < |tail|
      ensures tail[k - 1].meta.endOffset < tail[k].meta.startOffset
    {
      assert tail[k] == cs[k + 1] && tail[k - 1] == cs[k];
    }
  }

  /** One token count, its budget, and the three passes over a hierarchical chunker. */
  datatype HybridChunker = HybridChunker(
    tokenizer: Tokenizer,
    maxTokens: nat,
    mergePeers: bool,
    hierarchical: Hierarchical.HierarchicalChunker)
  {
    /** Token count of `text` contextualized with the headings and caption of `meta`. */
    function Count(text: string, meta: ChunkMetadata): nat
    {
      tokenizer.countTokens(Hierarchical.Contextualized(BaseChunk(text, meta)))
    }

    /** The contextualized chunk is within the token budget. */
    predicate Fits(c: BaseChunk)
    {
      Count(c.text, c.meta) <= maxTokens
    }

    /**
     * The word loop of `split_oversized_chunk` from the state where `cur` is the text being
     * gathered, `start` its start offset and `index` the index of the next piece.
     */
    function Pack(words: seq<string>, cur: string, start: nat, index: nat, meta: ChunkMetadata): seq<BaseChunk>
      decreases |words|
    {
      if words == [] then
        if cur == [] then [] else [Piece(cur, meta, start, index)]
      else
        var w := words[0];
        var test := if cur == [] then w else cur + " " + w;
        if Count(test, meta) > maxTokens && cur != [] then
          [Piece(cur, meta, start, index)] + Pack(words[1..], w, start + ByteLen(cur) + 1, index + 1, meta)
        else
          Pack(words[1..], test, start, index, meta)
    }

    /** What `split_oversized_chunk` returns for `chunk`. */
    function Split(chunk: BaseChunk): seq<BaseChunk>
    {
      if Fits(chunk) then [chunk]
      else
        var words := Words(chunk.text);
        if words == [] then [chunk]
        else Pack(words, [], chunk.meta.startOffset, chunk.meta.index, chunk.meta)
    }

    /** `split_oversized_chunk`. */
    method SplitOversizedChunk(chunk: BaseChunk) returns (result: seq<BaseChunk>)
      ensures result == Split(chunk)
    {
      var contextualized := hierarchical.Contextualize(chunk);
      var tokenCount := tokenizer.countTokens(contextualized);
      if tokenCount <= maxTokens {
        return [chunk];
      }
      var words := Words(chunk.text);
      if words == [] {
        return [chunk];
      }
      var meta := chunk.meta;
      result := [];
      var currentText: string := [];
      var currentStart: nat := meta.startOffset;
      var chunkIndex: nat := meta.index;
      for i := 0 to |words|
        invariant result + Pack(words[i..], currentText, currentStart, chunkIndex, meta) == Split(chunk)
      {
        var word := words[i];
        assert words[i..][1..] == words[i + 1..];
        var testText := if currentText == [] then word else currentText + " " + word;
        var testContextualized := hierarchical.Contextualize(BaseChunk(testText, meta));
        var testTokens := tokenizer.countTokens(testContextualized);
        if testTokens > maxTokens && currentText != [] {
          var endOffset: nat := currentStart + ByteLen(currentText);
          var piece := BaseChunk(currentText, ChunkMetadata(meta.docName, meta.headings, meta.caption, currentStart, endOffset, chunkIndex));
          ConcatAssoc(result, [piece], Pack(words[i + 1..], word, endOffset + 1, chunkIndex + 1, meta));
          result := result + [piece];
          chunkIndex := chunkIndex + 1;
          currentText := word;
          currentStart := endOffset + 1;
        } else {
          currentText := testText;
        }
      }
      assert words[|words|..] == [];
      if currentText != [] {
        var endOffset := currentStart + ByteLen(currentText);
        result := result + [BaseChunk(currentText, ChunkMetadata(meta.docName, meta.headings, meta.caption, currentStart, endOffset, chunkIndex))];
      }
    }

    /** Packing words adds no piece from nothing, and always emits the text gathered so far. */
    lemma {:induction false} PackNonEmpty(words: seq<string>, cur: string, start: nat, index: nat, meta: ChunkMetadata)
      requires AreWords(words)
      requires cur != [] || words != []
      ensures Pack(words, cur, start, index, meta) != []
      decreases |words|
    {
      if words != [] {
        var w := words[0];
        assert IsWord(w);
        var test := if cur == [] then w else cur + " " + w;
        assert AreWords(words[1..]);
        if Count(test, meta) > maxTokens && cur != [] {
        } else {
          PackNonEmpty(words[1..], test, start, index, meta);
        }
      }
    }

    /** A piece was cut before `w`: the cut piece's text, a space, then the rest's join. */
    lemma PackJoinCut(cur: string, w: string, rest: seq<string>, tail: seq<BaseChunk>, meta: ChunkMetadata, start: nat, index: nat)
      requires cur != [] && tail != []
      requires Join(Texts(tail)) == Join([w] + rest)
      ensures Join(Texts([Piece(cur, meta, start, index)] + tail)) == Join([cur] + ([w] + rest))
    {
      TextsAppend([Piece(cur, meta, start, index)], tail);
      assert Texts([Piece(cur, meta, start, index)]) == [cur];
      JoinAppend([cur], Texts(tail));
      JoinAppend([cur], [w] + rest);
    }

    /** The pieces' texts, joined with single spaces, are the gathered text and the words, joined. */
    lemma {:induction false} PackJoin(words: seq<string>, cur: string, start: nat, index: nat, meta: ChunkMetadata)
      requires AreWords(words)
      ensures Join(Texts(Pack(words, cur, start, index, meta))) == Join(Lead(cur) + words)
      decreases |words|
    {
      if words == [] {
        assert Lead(cur) + words == Lead(cur);
      } else {
        var w, rest := words[0], words[1..];
        assert IsWord(w) && AreWords(rest);
        assert words == [w] + rest;
        var test := if cur == [] then w else cur + " " + w;
        if Count(test, meta) > maxTokens && cur != [] {
          var next := start + ByteLen(cur) + 1;
          PackJoin(rest, w, next, index + 1, meta);
          PackNonEmpty(rest, w, next, index + 1, meta);
          PackJoinCut(cur, w, rest, Pack(rest, w, next, index + 1, meta), meta, start, index);
        } else {
          PackJoin(rest, test, start, index, meta);
          if cur == [] {
            assert Lead(test) + rest == Lead(cur) + words;
          } else {
            JoinFirstTwo(cur, w, rest);
            assert [cur, w] + rest == Lead(cur) + words;
          }
        }
      }
    }

    /** The pieces are laid out from `start` and `index` on. */
    lemma {:induction false} PackLaidOut(words: seq<string>, cur: string, start: nat, index: nat, meta: ChunkMetadata)
      ensures LaidOut(Pack(words, cur, start, index, meta), meta, start, index)
      decreases |words|
    {
      if words != [] {
        var w := words[0];
        var test := if cur == [] then w else cur + " " + w;
        if Count(test, meta) > maxTokens && cur != [] {
          PackLaidOut(words[1..], w, start + ByteLen(cur) + 1, index + 1, meta);
          LaidOutCons(Piece(cur, meta, start, index), Pack(words[1..], w, start + ByteLen(cur) + 1, index + 1, meta), meta, start, index);
        } else {
          PackLaidOut(words[1..], test, start, index, meta);
        }
      }
    }

    /** The text being gathered: empty, or not blank and either one word or within budget. */
    predicate Gathered(cur: string, meta: ChunkMetadata)
    {
      cur == [] || (!IsBlank(cur) && (IsWord(cur) || Count(cur, meta) <= maxTokens))
    }

    /** Every piece is non-blank, and is a single word or fits the budget. */
    predicate PiecesOk(ps: seq<BaseChunk>)
    {
      forall k | 0 <= k < |ps| :: !IsBlank(ps[k].text) && (IsWord(ps[k].text) || Fits(ps[k]))
    }

    /** Without headings and caption, the count is the count of the text itself. */
    lemma CountBare(text: string, meta: ChunkMetadata)
      requires meta.headings == [] && meta.caption == None
      ensures Count(text, meta) == tokenizer.countTokens(text)
    {
      Hierarchical.ContextualizedBare(BaseChunk(text, meta));
    }

    /** The token count depends on a chunk's text, headings and caption only. */
    lemma CountOfPeers(text: string, m1: ChunkMetadata, m2: ChunkMetadata)
      requires m1.headings == m2.headings && m1.caption == m2.caption
      ensures Count(text, m1) == Count(text, m2)
    {
    }

    lemma PiecesOkCons(cur: string, meta: ChunkMetadata, start: nat, index: nat, tail: seq<BaseChunk>)
      requires cur != [] && Gathered(cur, meta) && PiecesOk(tail)
      ensures PiecesOk([Piece(cur, meta, start, index)] + tail)
    {
      var p := Piece(cur, meta, start, index);
      CountOfPeers(cur, p.meta, meta);
      var ps := [p] + tail;
      forall k | 0 < k < |ps|
        ensures !IsBlank(ps[k].text) && (IsWord(ps[k].text) || Fits(ps[k]))
      {
        assert ps[k] == tail[k - 1];
      }
    }

    lemma {:induction false} PackPieces(words: seq<string>, cur: string, start: nat, index: nat, meta: ChunkMetadata)
      requires AreWords(words) && Gathered(cur, meta)
      ensures PiecesOk(Pack(words, cur, start, index, meta))
      decreases |words|
    {
      if words == [] {
        if cur != [] {
          PiecesOkCons(cur, meta, start, index, []);
          assert [Piece(cur, meta, start, index)] + [] == [Piece(cur, meta, start, index)];
        }
      } else {
        var w, rest := words[0], words[1..];
        assert IsWord(w) && AreWords(rest);
        WordNotBlank(w);
        var test := if cur == [] then w else cur + " " + w;
        if Count(test, meta) > maxTokens && cur != [] {
          var next := start + ByteLen(cur) + 1;
          PackPieces(rest, w, next, index + 1, meta);
          PiecesOkCons(cur, meta, start, index, Pack(rest, w, next, index + 1, meta));
        } else {
          if cur != [] {
            NotBlankPrefix(cur, " " + w);
            assert test == cur + (" " + w);
          }
          PackPieces(rest, test, start, index, meta);
        }
      }
    }

    /** `split_oversized_chunk` returns a chunk that fits, or whose text has no words, alone and unchanged. */
    lemma SplitKeeps(chunk: BaseChunk)
      requires Fits(chunk) || IsBlank(chunk.text)
      ensures Split(chunk) == [chunk]
    {
      WordsEmptyIffBlank(chunk.text);
    }

    /**
     * Splitting preserves the words: the pieces' texts joined with single spaces are the
     * chunk's words joined with single spaces, and so have the same words as the chunk.
     */
    lemma SplitPreservesWords(chunk: BaseChunk)
      ensures !Fits(chunk) && !IsBlank(chunk.text) ==> Join(Texts(Split(chunk))) == Join(Words(chunk.text))
      ensures Words(Join(Texts(Split(chunk)))) == Words(chunk.text)
    {
      var words := Words(chunk.text);
      WordsAreWords(chunk.text);
      WordsEmptyIffBlank(chunk.text);
      if Fits(chunk) || words == [] {
        assert Texts([chunk]) == [chunk.text];
      } else {
        PackJoin(words, [], chunk.meta.startOffset, chunk.meta.index, chunk.meta);
        assert Lead([]) + words == words;
      }
      WordsOfJoin(words);
    }

    /** No split piece of a non-blank chunk is blank, and a piece of two or more words fits the budget. */
    lemma SplitPieces(chunk: BaseChunk)
      ensures var ps := Split(chunk);
        && (!IsBlank(chunk.text) ==> forall k | 0 <= k < |ps| :: !IsBlank(ps[k].text))
        && (forall k | 0 <= k < |ps| :: Fits(ps[k]) || |Words(ps[k].text)| <= 1)
    {
      var words := Words(chunk.text);
      WordsEmptyIffBlank(chunk.text);
      if !Fits(chunk) && words != [] {
        WordsAreWords(chunk.text);
        var ps := Split(chunk);
        assert ps == Pack(words, [], chunk.meta.startOffset, chunk.meta.index, chunk.meta);
        PackPieces(words, [], chunk.meta.startOffset, chunk.meta.index, chunk.meta);
        forall k | 0 <= k < |ps|
          ensures Fits(ps[k]) || |Words(ps[k].text)| <= 1
        {
          if IsWord(ps[k].text) {
            WordsOfWord(ps[k].text);
          }
        }
      }
    }

    /**
     * A chunk that is split is cut into pieces that copy its document name, headings and
     * caption, take consecutive indices from its own, start at its start, span their own text
     * and leave one byte between each other; the last ends within the chunk's text.
     */
    lemma SplitLayout(chunk: BaseChunk)
      requires !Fits(chunk) && !IsBlank(chunk.text)
      ensures var ps := Split(chunk);
        && ps != []
        && LaidOut(ps, chunk.meta, chunk.meta.startOffset, chunk.meta.index)
        && ps[|ps| - 1].meta.endOffset == chunk.meta.startOffset + ByteLen(Join(Words(chunk.text)))
        && ps[|ps| - 1].meta.endOffset <= chunk.meta.startOffset + ByteLen(chunk.text)
    {
      var words := Words(chunk.text);
      WordsEmptyIffBlank(chunk.text);
      WordsAreWords(chunk.text);
      var ps := Split(chunk);
      PackNonEmpty(words, [], chunk.meta.startOffset, chunk.meta.index, chunk.meta);
      PackLaidOut(words, [], chunk.meta.startOffset, chunk.meta.index, chunk.meta);
      LaidOutSpan(ps, chunk.meta, chunk.meta.startOffset, chunk.meta.index);
      SplitPreservesWords(chunk);
      JoinedWordsNoLonger(chunk.text);
    }

    // -------------------------------------------------------------------------------------
    // merge_undersized_peers

    /** `prev` absorbs the next chunk `c` when they are peers and their joined text fits. */
    predicate Merges(prev: BaseChunk, c: BaseChunk)
    {
      Peers(prev, c) && Count(prev.text + " " + c.text, prev.meta) <= maxTokens
    }

    /** The accumulator loop of `merge_undersized_peers`, from the held chunk `prev`. */
    function MergeFrom(prev: BaseChunk, rest: seq<BaseChunk>): (r: seq<BaseChunk>)
      ensures 1 <= |r| <= 1 + |rest|
      decreases |rest|
    {
      if rest == [] then [prev]
      else if Merges(prev, rest[0]) then MergeFrom(Absorb(prev, rest[0]), rest[1..])
      else [prev] + MergeFrom(rest[0], rest[1..])
    }

    /** What `merge_undersized_peers` returns. */
    function Merge(chunks: seq<BaseChunk>): seq<BaseChunk>
    {
      if !mergePeers || chunks == [] then chunks
      else Reindexed(MergeFrom(chunks[0], chunks[1..]))
    }

    /** `merge_undersized_peers`. */
    method MergeUndersizedPeers(chunks: seq<BaseChunk>) returns (result: seq<BaseChunk>)
      ensures result == Merge(chunks)
    {
      if !mergePeers || chunks == [] {
        return chunks;
      }
      result := [];
      var current: Option<BaseChunk> := None;
      for i := 0 to |chunks|
        invariant i == 0 ==> current == None && result == []
        invariant i > 0 ==> current.Some? && result + MergeFrom(current.value, chunks[i..]) == MergeFrom(chunks[0], chunks[1..])
      {
        var chunk := chunks[i];
        assert chunks[i..] == [chunk] + chunks[i + 1..];
        match current {
          case None =>
            current := Some(chunk);
          case Some(prev) =>
            var canMerge := prev.meta.headings == chunk.meta.headings && prev.meta.caption == chunk.meta.caption;
            if canMerge {
              var mergedText := prev.text + " " + chunk.text;
              var contextualized := hierarchical.Contextualize(BaseChunk(mergedText, prev.meta));
              var tokenCount := tokenizer.countTokens(contextualized);
              if tokenCount <= maxTokens {
                current := Some(BaseChunk(mergedText, prev.meta.(endOffset := chunk.meta.endOffset)));
              } else {
                ConcatAssoc(result, [prev], MergeFrom(chunk, chunks[i + 1..]));
                result := result + [prev];
                current := Some(chunk);
              }
            } else {
              ConcatAssoc(result, [prev], MergeFrom(chunk, chunks[i + 1..]));
              result := result + [prev];
              current := Some(chunk);
            }
        }
      }
      assert chunks[|chunks|..] == [];
      result := result + [current.value];
      ghost var merged := result;
      for i := 0 to |result|
        invariant |result| == |merged|
        invariant forall k | 0 <= k < i :: result[k] == WithIndex(merged[k], k)
        invariant forall k | i <= k < |result| :: result[k] == merged[k]
      {
        result := result[i := WithIndex(result[i], i)];
      }
    }

    /** Merging keeps the texts in order: joined with spaces, the output says what the input says. */
    lemma {:induction false} MergeFromJoin(prev: BaseChunk, rest: seq<BaseChunk>)
      ensures Join(Texts(MergeFrom(prev, rest))) == Join([prev.text] + Texts(rest))
      decreases |rest|
    {
      if rest != [] {
        var c, more := rest[0], rest[1..];
        assert rest == [c] + more;
        TextsAppend([c], more);
        assert Texts([c]) == [c.text];
        ConcatAssoc([prev.text], [c.text], Texts(more));
        if Merges(prev, c) {
          MergeFromJoin(Absorb(prev, c), more);
          JoinFirstTwo(prev.text, c.text, Texts(more));
        } else {
          var tail := MergeFrom(c, more);
          MergeFromJoin(c, more);
          TextsAppend([prev], tail);
          assert Texts([prev]) == [prev.text];
          JoinAppend([prev.text], Texts(tail));
          JoinAppend([prev.text], [c.text] + Texts(more));
        }
      }
    }

    /**
     * The run-by-run reading of the merge loop, from the run `g` the held chunk stands for:
     * the runs of consecutive input chunks that become one output chunk each.
     */
    function Runs(g: seq<BaseChunk>, rest: seq<BaseChunk>): (gs: seq<seq<BaseChunk>>)
      requires g != []
      ensures gs != [] && forall i | 0 <= i < |gs| :: gs[i] != []
      decreases |rest|
    {
      if rest == [] then [g]
      else if Merges(Combine(g), rest[0]) then Runs(g + [rest[0]], rest[1..])
      else [g] + Runs([rest[0]], rest[1..])
    }

    /** The merge loop emits exactly the combined runs. */
    lemma {:induction false} MergeFromRuns(g: seq<BaseChunk>, rest: seq<BaseChunk>)
      requires g != []
      ensures MergeFrom(Combine(g), rest) == CombineAll(Runs(g, rest))
      decreases |rest|
    {
      if rest != [] {
        var c := rest[0];
        if Merges(Combine(g), c) {
          CombineAbsorb(g, c);
          MergeFromRuns(g + [c], rest[1..]);
        } else {
          CombineSingle(c);
          MergeFromRuns([c], rest[1..]);
          var gs := Runs([c], rest[1..]);
          assert ([g] + gs)[1..] == gs;
        }
      }
    }

    /** The runs cut the input into consecutive pieces: flattened, they are the input. */
    lemma {:induction false} RunsFlatten(g: seq<BaseChunk>, rest: seq<BaseChunk>)
      requires g != []
      ensures Flatten(Runs(g, rest)) == g + rest
      decreases |rest|
    {
      if rest == [] {
        assert Flatten([g]) == g + Flatten([g][1..]);
      } else {
        var c := rest[0];
        assert rest == [c] + rest[1..];
        if Merges(Combine(g), c) {
          RunsFlatten(g + [c], rest[1..]);
          ConcatAssoc(g, [c], rest[1..]);
        } else {
          var gs := Runs([c], rest[1..]);
          RunsFlatten([c], rest[1..]);
          assert ([g] + gs)[1..] == gs;
        }
      }
    }

    /** The first run starts with the held run. */
    lemma {:induction false} RunsHead(g: seq<BaseChunk>, rest: seq<BaseChunk>)
      requires g != []
      ensures Runs(g, rest)[0][0] == g[0]
      decreases |rest|
    {
      if rest != [] && Merges(Combine(g), rest[0]) {
        RunsHead(g + [rest[0]], rest[1..]);
      }
    }

    /** A run that fits: peers only, and within budget once combined if it has two or more members. */
    predicate GoodRun(g: seq<BaseChunk>)
    {
      PeerRun(g) && (|g| >= 2 ==> Fits(Combine(g)))
    }

    lemma GoodRunExtend(g: seq<BaseChunk>, c: BaseChunk)
      requires GoodRun(g) && Merges(Combine(g), c)
      ensures GoodRun(g + [c])
    {
      CombineAbsorb(g, c);
      var g2 := g + [c];
      CountOfPeers(Combine(g2).text, Combine(g2).meta, Combine(g).meta);
      forall k | 0 <= k < |g2|
        ensures Peers(g2[0], g2[k])
      {
        if k < |g| {
          assert g2[k] == g[k];
        }
      }
    }

    /**
     * Every run consists of peers, every run of two or more fits the budget once combined,
     * and no run could have absorbed the first chunk of the next.
     */
    lemma {:induction false} RunsGood(g: seq<BaseChunk>, rest: seq<BaseChunk>)
      requires GoodRun(g)
      ensures var gs := Runs(g, rest);
        && (forall i | 0 <= i < |gs| :: GoodRun(gs[i]))
        && (forall i | 0 < i < |gs| :: !Merges(Combine(gs[i - 1]), gs[i][0]))
      decreases |rest|
    {
      if rest != [] {
        var c := rest[0];
        if Merges(Combine(g), c) {
          GoodRunExtend(g, c);
          RunsGood(g + [c], rest[1..]);
          assert Runs(g, rest) == Runs(g + [c], rest[1..]);
          var gs := Runs(g + [c], rest[1..]);
          assert forall i | 0 <= i < |gs| :: GoodRun(gs[i]);
          assert forall i | 0 < i < |gs| :: !Merges(Combine(gs[i - 1]), gs[i][0]);
        } else {
          var tail := Runs([c], rest[1..]);
          RunsGood([c], rest[1..]);
          RunsHead([c], rest[1..]);
          var gs := [g] + tail;
          forall i | 0 < i < |gs|
            ensures GoodRun(gs[i]) && !Merges(Combine(gs[i - 1]), gs[i][0])
          {
            assert gs[i] == tail[i - 1];
          }
        }
      }
    }

    /** The runs `merge_undersized_peers` cuts a non-empty input into. */
    function MergeRuns(chunks: seq<BaseChunk>): (gs: seq<seq<BaseChunk>>)
      requires chunks != []
      ensures forall i | 0 <= i < |gs| :: gs[i] != []
    {
      Runs([chunks[0]], chunks[1..])
    }

    /**
     * With merging on, the output is the input cut into consecutive runs, each run combined
     * into one chunk (texts joined by spaces, the first one's metadata, the last one's end)
     * and the results numbered 0, 1, ...; each run is peers only, each run of two or more fits
     * the budget, and no run could have absorbed the next run's first chunk.
     */
    lemma MergeCharacterized(chunks: seq<BaseChunk>)
      requires mergePeers && chunks != []
      ensures var gs := MergeRuns(chunks);
        && Merge(chunks) == Reindexed(CombineAll(gs))
        && Flatten(gs) == chunks
        && (forall i | 0 <= i < |gs| :: GoodRun(gs[i]))
        && (forall i | 0 < i < |gs| :: !Merges(Combine(gs[i - 1]), gs[i][0]))
    {
      CombineSingle(chunks[0]);
      MergeFromRuns([chunks[0]], chunks[1..]);
      RunsFlatten([chunks[0]], chunks[1..]);
      assert [chunks[0]] + chunks[1..] == chunks;
      RunsGood([chunks[0]], chunks[1..]);
    }

    /** With merging off, or on no chunks, the input comes back untouched, indices included. */
    lemma MergeOffIsIdentity(chunks: seq<BaseChunk>)
      requires !mergePeers || chunks == []
      ensures Merge(chunks) == chunks
    {
    }

    /**
     * Merging never adds chunks, numbers its output 0, 1, ... when on, and keeps the texts:
     * joined with single spaces, the output's texts are the input's.
     */
    lemma MergeKeepsText(chunks: seq<BaseChunk>)
      ensures |Merge(chunks)| <= |chunks|
      ensures mergePeers ==> SequentiallyIndexed(Merge(chunks))
      ensures Join(Texts(Merge(chunks))) == Join(Texts(chunks))
    {
      if mergePeers && chunks != [] {
        var m := MergeFrom(chunks[0], chunks[1..]);
        TextsReindexed(m);
        MergeFromJoin(chunks[0], chunks[1..]);
        assert chunks == [chunks[0]] + chunks[1..];
        TextsAppend([chunks[0]], chunks[1..]);
        assert Texts([chunks[0]]) == [chunks[0].text];
      }
    }

    // -------------------------------------------------------------------------------------
    // chunk, contextualize

    /** The split pass: every chunk replaced by its pieces, in order. */
    function SplitAll(chunks: seq<BaseChunk>): seq<BaseChunk>
    {
      if chunks == [] then [] else Split(chunks[0]) + SplitAll(chunks[1..])
    }

    /** What `chunk` yields for a document named `docName` with nodes `nodes`. */
    function Chunks(docName: string, nodes: seq<DocumentNode>): seq<BaseChunk>
    {
      Merge(SplitAll(Hierarchical.ChunkNodes(docName, nodes)))
    }

    /** `chunk`: the hierarchical pass, the split pass appending into one list, then the merge pass. */
    method Chunk(doc: DoclingDocument) returns (chunks: seq<BaseChunk>)
      ensures chunks == Chunks(doc.name, doc.nodes)
      ensures Sound(chunks, doc.name) && AllBudgeted(chunks)
      ensures mergePeers ==> SequentiallyIndexed(chunks)
      ensures Hierarchical.Unpositioned(doc.nodes) ==> Ordered(chunks)
      ensures AllWords(chunks) == AllWords(Hierarchical.ChunkNodes(doc.name, doc.nodes))
    {
      var hierarchicalChunks := hierarchical.Chunk(doc);
      ghost var split := SplitAll(hierarchicalChunks);
      var splitChunks: seq<BaseChunk> := [];
      for i := 0 to |hierarchicalChunks|
        invariant splitChunks + SplitAll(hierarchicalChunks[i..]) == split
      {
        assert hierarchicalChunks[i..][1..] == hierarchicalChunks[i + 1..];
        var pieces := SplitOversizedChunk(hierarchicalChunks[i]);
        ConcatAssoc(splitChunks, pieces, SplitAll(hierarchicalChunks[i + 1..]));
        splitChunks := splitChunks + pieces;
      }
      assert hierarchicalChunks[|hierarchicalChunks|..] == [];
      assert splitChunks == split;
      chunks := MergeUndersizedPeers(splitChunks);
      ChunksWellFormed(doc.name, doc.nodes);
      ChunksBudgeted(doc.name, doc.nodes);
      ChunksPreserveWords(doc.name, doc.nodes);
      if mergePeers {
        ChunksIndexed(doc.name, doc.nodes);
      }
    }

    /** `contextualize`: the hierarchical chunker's. */
    method Contextualize(chunk: BaseChunk) returns (result: string)
      ensures result == Hierarchical.Contextualized(chunk)
    {
      result := hierarchical.Contextualize(chunk);
    }

    /** Within budget, or at most one word: a lone word over budget passes through as it is. */
    predicate Budgeted(c: BaseChunk)
    {
      Fits(c) || |Words(c.text)| <= 1
    }

    predicate AllBudgeted(cs: seq<BaseChunk>)
    {
      forall k | 0 <= k < |cs| :: Budgeted(cs[k])
    }

    lemma {:induction false} SplitAllBudgeted(chunks: seq<BaseChunk>)
      ensures AllBudgeted(SplitAll(chunks))
    {
      if chunks != [] {
        var ps, rest := Split(chunks[0]), SplitAll(chunks[1..]);
        SplitPieces(chunks[0]);
        SplitAllBudgeted(chunks[1..]);
        forall k | 0 <= k < |ps + rest|
          ensures Budgeted((ps + rest)[k])
        {
          if k < |ps| {
            assert (ps + rest)[k] == ps[k];
            assert Fits(ps[k]) || |Words(ps[k].text)| <= 1;
          } else {
            assert (ps + rest)[k] == rest[k - |ps|];
            assert Budgeted(rest[k - |ps|]);
          }
        }
      }
    }

    /** Merging keeps every chunk budgeted: a merged run fits, and a run of one is an input chunk. */
    lemma MergeBudgeted(chunks: seq<BaseChunk>)
      requires AllBudgeted(chunks)
      ensures AllBudgeted(Merge(chunks))
    {
      if mergePeers && chunks != [] {
        var gs := MergeRuns(chunks);
        MergeCharacterized(chunks);
        var m := Merge(chunks);
        forall k | 0 <= k < |m|
          ensures Budgeted(m[k])
        {
          CombineAllIndex(gs, k);
          var c := Combine(gs[k]);
          assert m[k] == WithIndex(c, k);
          CountOfPeers(c.text, c.meta, m[k].meta);
          if |gs[k]| == 1 {
            assert gs[k] == [gs[k][0]];
            CombineSingle(gs[k][0]);
            FlattenHas(gs, k, 0);
          }
        }
      }
    }

    /** Splitting keeps the words of every chunk, in order. */
    lemma {:induction false} SplitAllWords(chunks: seq<BaseChunk>)
      ensures AllWords(SplitAll(chunks)) == AllWords(chunks)
    {
      if chunks != [] {
        var c := chunks[0];
        SplitAllWords(chunks[1..]);
        AllWordsAppend(Split(c), SplitAll(chunks[1..]));
        SplitPreservesWords(c);
        WordsOfJoinedTexts(Split(c));
      }
    }

    lemma MergeWords(chunks: seq<BaseChunk>)
      ensures AllWords(Merge(chunks)) == AllWords(chunks)
    {
      MergeKeepsText(chunks);
      WordsOfJoinedTexts(Merge(chunks));
      WordsOfJoinedTexts(chunks);
    }

    /** Pieces carry the headings and caption of the chunk they were cut from. */
    lemma SplitContextFree(chunk: BaseChunk)
      requires chunk.meta.headings == [] && chunk.meta.caption == None
      ensures ContextFree(Split(chunk))
    {
      if !Fits(chunk) && !IsBlank(chunk.text) {
        SplitLayout(chunk);
      } else {
        SplitKeeps(chunk);
      }
    }

    lemma {:induction false} SplitAllContextFree(chunks: seq<BaseChunk>)
      requires ContextFree(chunks)
      ensures ContextFree(SplitAll(chunks))
    {
      if chunks != [] {
        SplitContextFree(chunks[0]);
        assert ContextFree(chunks[1..]) by {
          forall k | 0 <= k < |chunks| - 1
            ensures chunks[1..][k].meta.headings == [] && chunks[1..][k].meta.caption == None
          {
            assert chunks[1..][k] == chunks[k + 1];
          }
        }
        SplitAllContextFree(chunks[1..]);
        ContextFreeAppend(Split(chunks[0]), SplitAll(chunks[1..]));
      }
    }

    lemma MergeContextFree(chunks: seq<BaseChunk>)
      requires ContextFree(chunks)
      ensures ContextFree(Merge(chunks))
    {
      if mergePeers && chunks != [] {
        var gs := MergeRuns(chunks);
        MergeCharacterized(chunks);
        var m := Merge(chunks);
        forall k | 0 <= k < |m|
          ensures m[k].meta.headings == [] && m[k].meta.caption == None
        {
          CombineAllIndex(gs, k);
          FlattenHas(gs, k, 0);
        }
      }
    }

    /** With merging on, `chunk` numbers its chunks 0, 1, 2, ... in order. */
    lemma ChunksIndexed(docName: string, nodes: seq<DocumentNode>)
      requires mergePeers
      ensures SequentiallyIndexed(Chunks(docName, nodes))
    {
      MergeKeepsText(SplitAll(Hierarchical.ChunkNodes(docName, nodes)));
    }

    /**
     * `chunk` loses and adds no word: the words of its chunks, in order, are the words of the
     * hierarchical chunks.
     */
    lemma ChunksPreserveWords(docName: string, nodes: seq<DocumentNode>)
      ensures AllWords(Chunks(docName, nodes)) == AllWords(Hierarchical.ChunkNodes(docName, nodes))
    {
      var h := Hierarchical.ChunkNodes(docName, nodes);
      SplitAllWords(h);
      MergeWords(SplitAll(h));
    }

    /** Every chunk `chunk` yields fits the budget, unless it is a single word. */
    lemma ChunksBudgeted(docName: string, nodes: seq<DocumentNode>)
      ensures AllBudgeted(Chunks(docName, nodes))
    {
      var s := SplitAll(Hierarchical.ChunkNodes(docName, nodes));
      SplitAllBudgeted(Hierarchical.ChunkNodes(docName, nodes));
      MergeBudgeted(s);
    }

    /**
     * No chunk of `chunk` has headings or a caption, so every two adjacent chunks are peers and
     * the merge pass is held back by the budget alone.
     */
    lemma ChunksContextFree(docName: string, nodes: seq<DocumentNode>)
      ensures ContextFree(Chunks(docName, nodes))
      ensures var s := SplitAll(Hierarchical.ChunkNodes(docName, nodes));
        forall k | 0 < k < |s| :: Peers(s[k - 1], s[k])
    {
      var h := Hierarchical.ChunkNodes(docName, nodes);
      Hierarchical.ChunkPerContributingNode(docName, nodes);
      assert forall k | 0 <= k < |h| :: h[k].meta.headings == [] && h[k].meta.caption == None;
      SplitAllContextFree(h);
      MergeContextFree(SplitAll(h));
    }

    /** The pieces of a non-blank chunk are non-blank and carry its document name. */
    lemma SplitSound(chunk: BaseChunk)
      requires !IsBlank(chunk.text)
      ensures Sound(Split(chunk), chunk.meta.docName)
    {
      SplitPieces(chunk);
      if !Fits(chunk) {
        SplitLayout(chunk);
      } else {
        SplitKeeps(chunk);
      }
    }

    /**
     * The pieces of a chunk whose offsets cover its text stay inside the chunk, in order: the
     * first starts where the chunk starts, the last ends no later than the chunk ends.
     */
    lemma SplitOrdered(chunk: BaseChunk)
      requires chunk.meta.startOffset + ByteLen(chunk.text) <= chunk.meta.endOffset
      ensures var ps := Split(chunk);
        && ps != [] && Ordered(ps)
        && ps[0].meta.startOffset == chunk.meta.startOffset
        && ps[|ps| - 1].meta.endOffset <= chunk.meta.endOffset
    {
      if !Fits(chunk) && !IsBlank(chunk.text) {
        SplitLayout(chunk);
      } else {
        SplitKeeps(chunk);
      }
    }

    lemma {:induction false} SplitAllSound(chunks: seq<BaseChunk>, docName: string)
      requires Sound(chunks, docName)
      ensures Sound(SplitAll(chunks), docName)
    {
      if chunks != [] {
        SplitSound(chunks[0]);
        assert Sound(chunks[1..], docName) by {
          forall k | 0 <= k < |chunks| - 1
            ensures !IsBlank(chunks[1..][k].text) && chunks[1..][k].meta.docName == docName
          {
            assert chunks[1..][k] == chunks[k + 1];
          }
        }
        SplitAllSound(chunks[1..], docName);
        SoundAppend(Split(chunks[0]), SplitAll(chunks[1..]), docName);
      }
    }

    /**
     * Splitting every chunk of an ordered sequence whose offsets cover their texts gives an
     * ordered sequence that starts where the first chunk starts.
     */
    lemma {:induction false} SplitAllOrdered(chunks: seq<BaseChunk>)
      requires Ordered(chunks) && Covering(chunks)
      ensures Ordered(SplitAll(chunks))
      ensures chunks != [] ==> SplitAll(chunks) != [] && SplitAll(chunks)[0].meta.startOffset == chunks[0].meta.startOffset
    {
      if chunks != [] {
        var c, rest := chunks[0], chunks[1..];
        var ps := Split(c);
        SplitOrdered(c);
        OrderedTail(chunks);
        assert Covering(rest) by {
          forall k | 0 <= k < |rest|
            ensures rest[k].meta.startOffset + ByteLen(rest[k].text) <= rest[k].meta.endOffset
          {
            assert rest[k] == chunks[k + 1];
          }
        }
        SplitAllOrdered(rest);
        if rest != [] {
          assert chunks[1] == rest[0];
        }
        OrderedAppend(ps, SplitAll(rest));
        assert SplitAll(chunks) == ps + SplitAll(rest);
      }
    }

    lemma {:induction false} MergeFromSound(prev: BaseChunk, rest: seq<BaseChunk>, docName: string)
      requires !IsBlank(prev.text) && prev.meta.docName == docName && Sound(rest, docName)
      ensures Sound(MergeFrom(prev, rest), docName)
      decreases |rest|
    {
      if rest != [] {
        var c := rest[0];
        assert Sound(rest[1..], docName) by {
          forall k | 0 <= k < |rest| - 1
            ensures !IsBlank(rest[1..][k].text) && rest[1..][k].meta.docName == docName
          {
            assert rest[1..][k] == rest[k + 1];
          }
        }
        if Merges(prev, c) {
          NotBlankPrefix(prev.text, " " + c.text);
          assert Absorb(prev, c).text == prev.text + (" " + c.text);
          MergeFromSound(Absorb(prev, c), rest[1..], docName);
        } else {
          MergeFromSound(c, rest[1..], docName);
          SoundAppend([prev], MergeFrom(c, rest[1..]), docName);
        }
      }
    }

    /**
     * The merge loop over an ordered sequence, holding a chunk that ends before the sequence
     * starts, yields an ordered sequence that starts where the held chunk starts.
     */
    lemma {:induction false} MergeFromOrdered(prev: BaseChunk, rest: seq<BaseChunk>)
      requires prev.meta.WellFormed() && Ordered(rest)
      requires rest != [] ==> prev.meta.endOffset < rest[0].meta.startOffset
      ensures var r := MergeFrom(prev, rest);
        Ordered(r) && r[0].meta.startOffset == prev.meta.startOffset
      decreases |rest|
    {
      if rest != [] {
        var c := rest[0];
        OrderedTail(rest);
        if |rest| > 1 {
          assert rest[1..][0] == rest[1];
        }
        if Merges(prev, c) {
          MergeFromOrdered(Absorb(prev, c), rest[1..]);
        } else {
          MergeFromOrdered(c, rest[1..]);
          OrderedAppend([prev], MergeFrom(c, rest[1..]));
        }
      }
    }

    lemma MergeSound(chunks: seq<BaseChunk>, docName: string)
      requires Sound(chunks, docName)
      ensures Sound(Merge(chunks), docName)
    {
      if mergePeers && chunks != [] {
        assert Sound(chunks[1..], docName) by {
          forall k | 0 <= k < |chunks| - 1
            ensures !IsBlank(chunks[1..][k].text) && chunks[1..][k].meta.docName == docName
          {
            assert chunks[1..][k] == chunks[k + 1];
          }
        }
        MergeFromSound(chunks[0], chunks[1..], docName);
      }
    }

    /** Merging keeps an ordered sequence ordered: a merged chunk spans from its first member's start to its last member's end. */
    lemma MergeOrdered(chunks: seq<BaseChunk>)
      requires Ordered(chunks)
      ensures Ordered(Merge(chunks))
    {
      if mergePeers && chunks != [] {
        OrderedTail(chunks);
        if |chunks| > 1 {
          assert chunks[1..][0] == chunks[1];
        }
        MergeFromOrdered(chunks[0], chunks[1..]);
      }
    }

    /**
     * Every chunk `chunk` yields has non-blank text and the document's name; for a document
     * whose nodes carry no source position, every chunk ends no earlier than it starts and
     * before the next one starts.
     */
    lemma ChunksWellFormed(docName: string, nodes: seq<DocumentNode>)
      ensures Sound(Chunks(docName, nodes), docName)
      ensures Hierarchical.Unpositioned(nodes) ==> Ordered(Chunks(docName, nodes))
    {
      var h := Hierarchical.ChunkNodes(docName, nodes);
      var ks := Hierarchical.Contributing(nodes);
      Hierarchical.ChunkPerContributingNode(docName, nodes);
      assert Sound(h, docName) by {
        forall k | 0 <= k < |h|
          ensures !IsBlank(h[k].text)
        {
          assert Hierarchical.Contributes(ks[k]);
        }
      }
      SplitAllSound(h, docName);
      MergeSound(SplitAll(h), docName);
      if Hierarchical.Unpositioned(nodes) {
        Hierarchical.SynthesizedOffsetsOrdered(docName, nodes);
        Hierarchical.SynthesizedOffsets(docName, nodes);
        SplitAllOrdered(h);
        MergeOrdered(SplitAll(h));
      }
    }
  }

  lemma ExampleWords()
    ensures Words("ab cd") == ["ab", "cd"]
  {
    GraphicNotWhitespace('a');
    GraphicNotWhitespace('b');
    GraphicNotWhitespace('c');
    GraphicNotWhitespace('d');
    assert IsWord("ab") && IsWord("cd");
    assert "ab cd" == "ab" + " " + "cd";
    WordsOfSpaced("ab", "cd");
    WordsOfWord("ab");
    WordsOfWord("cd");
  }

  function ExampleNodes(): seq<DocumentNode>
  {
    [NewDocumentNode(NodeType.Paragraph, "ab cd"), NewDocumentNode(NodeType.Paragraph, "c")]
  }

  lemma ExampleHierarchical()
    ensures Hierarchical.ChunkNodes("doc", ExampleNodes())
         == [BaseChunk("ab cd", ChunkMetadata("doc", [], None, 0, 5, 0)),
             BaseChunk("c", ChunkMetadata("doc", [], None, 6, 7, 1))]
  {
    var nodes := ExampleNodes();
    GraphicNotWhitespace('a');
    GraphicNotWhitespace('c');
    assert "ab cd"[0] == 'a' && "c"[0] == 'c';
    assert Hierarchical.Contributes(nodes[0]) && Hierarchical.Contributes(nodes[1]);
    assert nodes[1..][1..] == [];
    assert ByteLen("ab cd") == 5 && ByteLen("c") == 1;
  }

  lemma ExampleCounts(hc: HybridChunker, m: ChunkMetadata)
    requires hc.tokenizer == Mock(1) && m.headings == [] && m.caption == None
    ensures hc.Count("ab cd", m) == 2 && hc.Count("ab", m) == 1
  {
    assert ByteLen("ab cd") == 5 && ByteLen("ab") == 2;
    hc.CountBare("ab cd", m);
    hc.CountBare("ab", m);
  }

  lemma ExampleSplitLong(hc: HybridChunker)
    requires hc.tokenizer == Mock(1) && hc.maxTokens == 1
    ensures var m := ChunkMetadata("doc", [], None, 0, 5, 0);
      hc.Split(BaseChunk("ab cd", m)) == [Piece("ab", m, 0, 0), Piece("cd", m, 3, 1)]
  {
    var m := ChunkMetadata("doc", [], None, 0, 5, 0);
    var ps := [Piece("ab", m, 0, 0), Piece("cd", m, 3, 1)];
    assert hc.Pack(["ab", "cd"], [], 0, 0, m) == ps by {
      ExampleCounts(hc, m);
      assert "ab" + " " + "cd" == "ab cd";
      assert ByteLen("ab") == 2;
      assert hc.Pack(["cd"], "ab", 0, 0, m) == [Piece("ab", m, 0, 0)] + hc.Pack([], "cd", 3, 1, m);
    }
    assert !hc.Fits(BaseChunk("ab cd", m)) by {
      ExampleCounts(hc, m);
    }
    ExampleWords();
  }

  lemma ExampleSplitShort(hc: HybridChunker)
    requires hc.tokenizer == Mock(1) && hc.maxTokens == 1
    ensures var m := ChunkMetadata("doc", [], None, 6, 7, 1);
      hc.Split(BaseChunk("c", m)) == [BaseChunk("c", m)]
  {
    var m := ChunkMetadata("doc", [], None, 6, 7, 1);
    assert ByteLen("c") == 1;
    hc.CountBare("c", m);
    assert hc.Fits(BaseChunk("c", m));
  }

  /** The split pass over the two example paragraphs cuts the first and keeps the second. */
  lemma ExampleSplitAll(hc: HybridChunker)
    requires hc.tokenizer == Mock(1) && hc.maxTokens == 1
    ensures var m1 := ChunkMetadata("doc", [], None, 0, 5, 0);
      var m2 := ChunkMetadata("doc", [], None, 6, 7, 1);
      hc.SplitAll([BaseChunk("ab cd", m1), BaseChunk("c", m2)])
        == [Piece("ab", m1, 0, 0), Piece("cd", m1, 3, 1), BaseChunk("c", m2)]
  {
    var m1 := ChunkMetadata("doc", [], None, 0, 5, 0);
    var m2 := ChunkMetadata("doc", [], None, 6, 7, 1);
    var h := [BaseChunk("ab cd", m1), BaseChunk("c", m2)];
    ExampleSplitLong(hc);
    ExampleSplitShort(hc);
    assert h[1..][1..] == [];
    assert hc.SplitAll(h[1..]) == [BaseChunk("c", m2)];
    assert hc.SplitAll(h) == [Piece("ab", m1, 0, 0), Piece("cd", m1, 3, 1)] + [BaseChunk("c", m2)];
  }

  /**
   * With merging off nothing re-numbers the split pieces: under the reference tokenizer with
   * a one-token budget, the paragraphs "ab cd" and "c" give the chunks "ab", "cd" and "c" with
   * indices 0, 1 and 1.
   */
  lemma IndicesRepeatWithoutMerge()
    ensures var cs := HybridChunker(Mock(1), 1, false, Hierarchical.New()).Chunks("doc", ExampleNodes());
      && Texts(cs) == ["ab", "cd", "c"]
      && cs[0].meta.index == 0 && cs[1].meta.index == 1 && cs[2].meta.index == 1
  {
    var hc := HybridChunker(Mock(1), 1, false, Hierarchical.New());
    var m1 := ChunkMetadata("doc", [], None, 0, 5, 0);
    var m2 := ChunkMetadata("doc", [], None, 6, 7, 1);
    var s := [Piece("ab", m1, 0, 0), Piece("cd", m1, 3, 1), BaseChunk("c", m2)];
    assert hc.Chunks("doc", ExampleNodes()) == s by {
      ExampleHierarchical();
      ExampleSplitAll(hc);
    }
    assert Texts(s) == ["ab", "cd", "c"] by {
      assert s[1..][1..][1..] == [];
    }
  }

  /** `HybridChunker::new`: the tokenizer's own limit and peer merging on, with no validation. */
  function New(tokenizer: Tokenizer): (c: HybridChunker)
    ensures c.tokenizer == tokenizer && c.maxTokens == tokenizer.maxTokens && c.mergePeers
    ensures c.hierarchical == Hierarchical.New()
  {
    HybridChunker(tokenizer, tokenizer.maxTokens, true, Hierarchical.New())
  }

  /**
   * What `build` returns for a builder holding `tokenizer`, `maxTokens` and `mergePeers`: a
   * chunker exactly when a tokenizer is set and the limit in force (the one set, else the
   * tokenizer's) is positive, and an invalid-configuration error otherwise.
   */
  function Built(tokenizer: Option<Tokenizer>, maxTokens: Option<nat>, mergePeers: bool): (r: Result<HybridChunker, ChunkingError>)
    ensures r.Ok? <==> tokenizer.Some? && (if maxTokens.Some? then maxTokens.value else tokenizer.value.maxTokens) > 0
    ensures r.Ok? ==> && r.value.tokenizer == tokenizer.value
                      && r.value.maxTokens == (if maxTokens.Some? then maxTokens.value else tokenizer.value.maxTokens)
                      && r.value.mergePeers == mergePeers
                      && r.value.hierarchical == Hierarchical.New()
    ensures tokenizer.None? ==> r == Err(InvalidConfig("tokenizer is required"))
    ensures r.Err? && tokenizer.Some? ==> r == Err(InvalidConfig("max_tokens must be greater than 0"))
  {
    match tokenizer
    case None => Err(InvalidConfig("tokenizer is required"))
    case Some(t) =>
      var max := match maxTokens case Some(m) => m case None => t.maxTokens;
      if max == 0 then Err(InvalidConfig("max_tokens must be greater than 0"))
      else Ok(HybridChunker(t, max, mergePeers, Hierarchical.New()))
  }

  /**
   * A builder given only a tokenizer builds what `new` makes when the tokenizer's limit is
   * positive; for a zero limit `build` refuses while `new` accepts.
   */
  lemma BuildDefaultsAgreeWithNew(t: Tokenizer)
    ensures t.maxTokens > 0 ==> Built(Some(t), None, true) == Ok(New(t))
    ensures t.maxTokens == 0 ==> Built(Some(t), None, true).Err? && New(t).maxTokens == 0
  {
  }

  /** `HybridChunkerBuilder`; `HybridChunker::builder` is its constructor. */
  class HybridChunkerBuilder {
    var tokenizer: Option<Tokenizer>
    var maxTokens: Option<nat>
    var mergePeers: bool

    /** No tokenizer, no explicit limit, peer merging on. */
    constructor ()
      ensures tokenizer == None && maxTokens == None && mergePeers
    {
      tokenizer := None;
      maxTokens := None;
      mergePeers := true;
    }

    /** The `tokenizer` setter. */
    method SetTokenizer(t: Tokenizer)
      modifies this
      ensures tokenizer == Some(t) && maxTokens == old(maxTokens) && mergePeers == old(mergePeers)
    {
      tokenizer := Some(t);
    }

    /** The `max_tokens` setter. */
    method SetMaxTokens(max: nat)
      modifies this
      ensures maxTokens == Some(max) && tokenizer == old(tokenizer) && mergePeers == old(mergePeers)
    {
      maxTokens := Some(max);
    }

    /** The `merge_peers` setter. */
    method SetMergePeers(merge: bool)
      modifies this
      ensures mergePeers == merge && tokenizer == old(tokenizer) && maxTokens == old(maxTokens)
    {
      mergePeers := merge;
    }

    /** `build`. */
    method Build() returns (r: Result<HybridChunker, ChunkingError>)
      ensures r == Built(tokenizer, maxTokens, mergePeers)
    {
      if tokenizer.None? {
        return Err(InvalidConfig("tokenizer is required"));
      }
      var t := tokenizer.value;
      var max := if maxTokens.Some? then maxTokens.value else t.maxTokens;
      if max == 0 {
        return Err(InvalidConfig("max_tokens must be greater than 0"));
      }
      return Ok(HybridChunker(t, max, mergePeers, Hierarchical.New()));
    }
  }
}
