/** `splitSentencesWithOffsets`: the scan followed by the merge. */
module Sentences {
  import opened KotlinStd
  import opened SentenceScan
  import opened Spans
  import opened SentenceMerge

  // ---------------------------------------------------------------------------
  // splitSentencesWithOffsets
  // ---------------------------------------------------------------------------

  /** The sentences `splitSentencesWithOffsets(s)` returns. */
  function SentencesOf(s: string): seq<string> {
    Units(Texts(Scan(s)))
  }

  /** The offsets `splitSentencesWithOffsets(s)` returns. */
  function OffsetsOf(s: string): seq<int> {
    UnitStarts(Texts(Scan(s)), Starts(Scan(s)))
  }

  method SplitSentencesWithOffsets(s: string) returns (sentences: seq<string>, offsets: seq<int>)
    ensures sentences == SentencesOf(s) && offsets == OffsetsOf(s)
  {
    var out, ofs := ScanSentences(s);
    ScanTexts(s);
    sentences, offsets := MergeShortSentences(out, ofs);
  }

  // ---------------------------------------------------------------------------
  // The scan's output as the two parallel lists
  // ---------------------------------------------------------------------------

  /** Every scanned sentence is non-empty and trimmed. */
  lemma ScanTexts(s: string)
    ensures forall k :: 0 <= k < |Texts(Scan(s))| ==> Texts(Scan(s))[k] != [] && IsTrimmed(Texts(Scan(s))[k])
  {
    var r := Scan(s);
    ScanWellFormed(s);
    forall k | 0 <= k < |r| ensures WellFormed(s, 0, r[k]) {
      assert r[k] in r;
    }
  }

  /** Every scanned sentence starts inside the text, at a strictly larger offset than
      the sentence before it. */
  lemma ScanStarts(s: string)
    ensures forall k :: 0 <= k < |Starts(Scan(s))| ==> 0 <= Starts(Scan(s))[k] < |s|
    ensures forall k, l :: 0 <= k < l < |Starts(Scan(s))| ==> Starts(Scan(s))[k] < Starts(Scan(s))[l]
  {
    var r := Scan(s);
    ScanWellFormed(s);
    forall k | 0 <= k < |r| ensures WellFormed(s, 0, r[k]) {
      assert r[k] in r;
    }
  }

  // ---------------------------------------------------------------------------
  // What splitSentencesWithOffsets promises
  // ---------------------------------------------------------------------------

  /** The two lists have equal length, and the offsets strictly increase. */
  lemma SentencesOrdered(s: string)
    ensures |SentencesOf(s)| == |OffsetsOf(s)|
    ensures forall k, l :: 0 <= k < l < |OffsetsOf(s)| ==> OffsetsOf(s)[k] < OffsetsOf(s)[l]
  {
    ScanStarts(s);
    MergeKeepsOrder(Texts(Scan(s)), Starts(Scan(s)));
  }

  /** Every offset lies inside the text: it is the offset of the unit's first sentence. */
  lemma OffsetsInside(s: string)
    ensures forall k :: 0 <= k < |OffsetsOf(s)| ==> 0 <= OffsetsOf(s)[k] < |s|
  {
    ScanStarts(s);
  }

  /** Every sentence returned is non-empty and trimmed. */
  lemma SentencesTrimmed(s: string)
    ensures forall k :: 0 <= k < |SentencesOf(s)| ==> SentencesOf(s)[k] != [] && IsTrimmed(SentencesOf(s)[k])
  {
    var out := Texts(Scan(s));
    var g := Groups(out);
    ScanTexts(s);
    forall k | 0 <= k < |g|
      ensures Units(out)[k] != [] && IsTrimmed(Units(out)[k])
    {
      var xs := out[g[k].lo..g[k].hi];
      assert forall m :: 0 <= m < |xs| ==> xs[m] == out[g[k].lo + m];
      JoinTrimmed(" ", xs);
    }
  }

  /** Splitting loses no character other than whitespace: the sentences joined by spaces
      carry exactly the text's non-whitespace characters, in order. */
  lemma SentencesKeepInk(s: string)
    ensures Ink(Join(" ", SentencesOf(s))) == Ink(s)
  {
    var out := Texts(Scan(s));
    MergeKeepsContent(out);
    InkOfJoin(" ", out);
    ScanInk(s);
  }

  /** An empty text has no sentences. */
  lemma SentencesOfEmpty()
    ensures SentencesOf("") == [] && OffsetsOf("") == []
  {
    ScanEmpty();
  }

  /** A text with no sentence boundary before its last character is one sentence: the
      whole text trimmed, at the offset where the trimmed text would end at the text's end. */
  lemma SingleSentence(s: string)
    requires !AllWhitespace(s)
    requires forall p :: 0 <= p < |s| - 1 ==> !IsBoundary(s, p)
    ensures SentencesOf(s) == [Trim(s)]
    ensures OffsetsOf(s) == [|s| - |Trim(s)|]
  {
    OneSentence(s);
    FlushWhole(s);
    SingleUnit(s, Trim(s), |s| - |Trim(s)|);
  }

  /** A text that scans to one sentence is that one sentence, at its own offset. */
  lemma SingleUnit(s: string, t: string, o: int)
    requires Scan(s) == [Sentence(t, o)]
    ensures SentencesOf(s) == [t] && OffsetsOf(s) == [o]
  {
    var r := Scan(s);
    assert Texts(r) == [t] && Starts(r) == [o];
    MergeSingle(t, o);
  }
}
