/** `chunkText` without its file read and write: the text after its NFKC step goes
    through `normalize`, `splitParagraphs`, `splitSentencesWithOffsets` over the
    paragraphs joined by blank lines, `detectSections` over the paragraphs, and
    `makeChunks`. */
module Pipeline {
  import opened KotlinStd
  import opened Normalizer
  import opened Paragraphs
  import opened Sentences
  import opened Sections
  import opened ChunkRecord
  import opened Chunker
  import opened ChunkFacts

  /** The paragraphs of the normalized text. */
  function ParagraphsOf(nfkc: string): seq<string> {
    SplitParagraphs(NormalizedText(nfkc))
  }

  /** The paragraphs joined by blank lines: the text the sentence offsets and the heading
      offsets both count in. */
  function JoinedOf(nfkc: string): string {
    Join("\n\n", ParagraphsOf(nfkc))
  }

  /** The settings `chunkText` hands to `makeChunks`. */
  function SettingsOf(nfkc: string, docId: string, targetLen: int, overlapSize: int): Settings {
    Settings(docId, SectionsOf(ParagraphsOf(nfkc)), targetLen, overlapSize)
  }

  /** The chunks `chunkText` writes, one JSON line each. */
  function TextChunks(nfkc: string, docId: string, targetLen: int, overlapSize: int): seq<Chunk> {
    var joined := JoinedOf(nfkc);
    SentencesOrdered(joined);
    ChunksOf(SettingsOf(nfkc, docId, targetLen, overlapSize), SentencesOf(joined), OffsetsOf(joined))
  }

  method ChunkText(nfkc: string, docId: string, targetLen: int, overlapSize: int) returns (chunks: seq<Chunk>)
    ensures chunks == TextChunks(nfkc, docId, targetLen, overlapSize)
  {
    var normalized := Normalize(nfkc);
    var paragraphs := SplitParagraphs(normalized);
    var joined := Join("\n\n", paragraphs);
    var sentences, offsets := SplitSentencesWithOffsets(joined);
    var sections := DetectSections(paragraphs);
    SentencesOrdered(joined);
    chunks := MakeChunks(sentences, offsets, docId, sections, targetLen, overlapSize);
  }

  // ---------------------------------------------------------------------------
  // What the chunk file holds
  // ---------------------------------------------------------------------------

  /** The sentences of any text meet what the chunk lemmas ask of their input: as many
      offsets as sentences, sentences non-empty and trimmed, offsets strictly increasing. */
  lemma SentencesFit(s: string)
    ensures |SentencesOf(s)| == |OffsetsOf(s)|
    ensures Tidy(SentencesOf(s)) && Increasing(OffsetsOf(s), |SentencesOf(s)|)
  {
    SentencesOrdered(s);
    SentencesTrimmed(s);
  }

  /** The `k`-th chunk of the file is numbered `k` with id `docId-0000k`, names `docId.txt`
      as its source, holds non-empty trimmed text, and ends after it starts; the starts
      strictly increase from chunk to chunk. */
  lemma TextChunksFields(nfkc: string, docId: string, targetLen: int, overlapSize: int)
    ensures var r := TextChunks(nfkc, docId, targetLen, overlapSize);
      && (forall k :: 0 <= k < |r| ==>
        && r[k].chunk == Some(k) && r[k].id == ChunkId(docId, k)
        && r[k].source == Some(docId + ".txt")
        && r[k].text != [] && IsTrimmed(r[k].text)
        && r[k].charStart.Some? && r[k].charEnd.Some? && r[k].charStart.value < r[k].charEnd.value)
      && StartsIncrease(r)
  {
    var joined := JoinedOf(nfkc);
    var st := SettingsOf(nfkc, docId, targetLen, overlapSize);
    var ss, os := SentencesOf(joined), OffsetsOf(joined);
    SentencesFit(joined);
    ChunkFields(st, ss, os);
    ChunksSpan(st, ss, os);
    var r := ChunksOf(st, ss, os);
    forall k | 0 <= k < |r| ensures r[k].charStart.Some? && r[k].charEnd.Some? && r[k].charStart.value < r[k].charEnd.value {
      assert r[k] in r;
    }
  }

  /** Each chunk's section is the nearest heading at or before the chunk's start, both
      counted in the paragraphs joined by blank lines. */
  lemma TextChunksSections(nfkc: string, docId: string, targetLen: int, overlapSize: int)
    ensures forall c :: c in TextChunks(nfkc, docId, targetLen, overlapSize) ==>
      c.charStart.Some? && IsNearestHeading(ParagraphsOf(nfkc), c.charStart.value, c.section)
  {
    var joined := JoinedOf(nfkc);
    var st := SettingsOf(nfkc, docId, targetLen, overlapSize);
    var ss, os := SentencesOf(joined), OffsetsOf(joined);
    SentencesFit(joined);
    ChunkFields(st, ss, os);
    var r := ChunksOf(st, ss, os);
    forall c | c in r ensures c.charStart.Some? && IsNearestHeading(ParagraphsOf(nfkc), c.charStart.value, c.section) {
      var k :| 0 <= k < |r| && r[k] == c;
      NearestHeading(ParagraphsOf(nfkc), c.charStart.value);
    }
  }

  /** Each chunk holds a run of consecutive sentences joined by newlines, from the start of
      the first to the end of the last, within the target length unless it is a single
      sentence. */
  lemma TextChunksWindows(nfkc: string, docId: string, targetLen: int, overlapSize: int)
    ensures |SentencesOf(JoinedOf(nfkc))| == |OffsetsOf(JoinedOf(nfkc))|
    ensures forall c :: c in TextChunks(nfkc, docId, targetLen, overlapSize) ==>
      exists x, y :: 0 <= x < y <= |SentencesOf(JoinedOf(nfkc))| &&
        WindowOf(SettingsOf(nfkc, docId, targetLen, overlapSize), SentencesOf(JoinedOf(nfkc)), OffsetsOf(JoinedOf(nfkc)), c, x, y)
  {
    var joined := JoinedOf(nfkc);
    SentencesFit(joined);
    ChunksText(SettingsOf(nfkc, docId, targetLen, overlapSize), SentencesOf(joined), OffsetsOf(joined));
  }

  /** There are chunks exactly when the text has sentences, and the last chunk is a
      window that ends with the last sentence. */
  lemma TextChunksLast(nfkc: string, docId: string, targetLen: int, overlapSize: int)
    ensures |SentencesOf(JoinedOf(nfkc))| == |OffsetsOf(JoinedOf(nfkc))|
    ensures EndsWithLast(SettingsOf(nfkc, docId, targetLen, overlapSize), SentencesOf(JoinedOf(nfkc)),
      OffsetsOf(JoinedOf(nfkc)), TextChunks(nfkc, docId, targetLen, overlapSize))
  {
    var joined := JoinedOf(nfkc);
    SentencesFit(joined);
    LastChunk(SettingsOf(nfkc, docId, targetLen, overlapSize), SentencesOf(joined), OffsetsOf(joined));
  }
}
