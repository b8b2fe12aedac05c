/** `makeChunks`: sentences packed greedily into chunks of about `targetLen` characters,
    each chunk after the first starting a few sentences back to overlap its predecessor. */
module Chunker {
  import opened KotlinStd
  import opened Sections
  import opened ChunkRecord

  /** The fixed inputs of `makeChunks` besides the sentences and their offsets. */
  datatype Settings = Settings(docId: string, sections: seq<Marker>, targetLen: int, overlap: int)

  // ---------------------------------------------------------------------------
  // Packing sentences into one chunk (the inner loop)
  // ---------------------------------------------------------------------------

  /** The buffer after appending sentence `s`: separated by a newline unless the buffer
      is still empty. */
  function AppendLine(cur: string, s: string): string {
    if cur == [] then s else cur + "\n" + s
  }

  /** The inner loop stops before `s` when the buffer is non-empty and a newline plus `s`
      would take it past the target length. */
  predicate Full(cur: string, s: string, targetLen: int) {
    cur != [] && |cur| + 1 + |s| > targetLen
  }

  /** The state the inner loop ends in: the packed text, the end offset it computed and
      the first sentence it did not take. */
  datatype Packed = Packed(text: string, end: int, next: nat)

  /** The inner loop from sentence `j` with buffer `cur` and end offset `end`. */
  function PackFrom(ss: seq<string>, os: seq<int>, targetLen: int, cur: string, end: int, j: nat): (p: Packed)
    requires j <= |ss| <= |os|
    ensures j <= p.next <= |ss|
    ensures cur == [] && j < |ss| ==> j < p.next
    decreases |ss| - j
  {
    if j < |ss| && !Full(cur, ss[j], targetLen) then
      PackFrom(ss, os, targetLen, AppendLine(cur, ss[j]), os[j] + |ss[j]|, j + 1)
    else
      Packed(cur, end, j)
  }

  /** The inner loop for the chunk that starts at sentence `i`. */
  function Pack(ss: seq<string>, os: seq<int>, targetLen: int, i: nat): (p: Packed)
    requires i < |ss| <= |os|
    ensures i < p.next <= |ss|
  {
    PackFrom(ss, os, targetLen, [], os[i], i)
  }

  // ---------------------------------------------------------------------------
  // The overlap: where the next chunk starts
  // ---------------------------------------------------------------------------

  /** The backward scan from sentence `k` with `back` characters counted so far: it steps
      back over a sentence, counting its length plus one, while it has not passed sentence
      `i` and has counted fewer than `overlap` characters. */
  function BackFrom(ss: seq<string>, i: nat, k: int, back: int, overlap: int): (r: int)
    requires i - 1 <= k < |ss|
    ensures i - 1 <= r <= k
    decreases k - i + 1
  {
    if k >= i && back < overlap then BackFrom(ss, i, k - 1, back + |ss[k]| + 1, overlap) else k
  }

  /** The first sentence of the next chunk, after a chunk of sentences `i..j`:
      `max(k + 1, i + 1)` with `k` where the backward scan from `j - 1` stopped. */
  function NextStart(ss: seq<string>, i: nat, j: nat, overlap: int): (n: nat)
    requires i < j <= |ss|
    ensures i < n <= j
  {
    var k := BackFrom(ss, i, j - 1, 0, overlap);
    if k + 1 > i + 1 then k + 1 else i + 1
  }

  // ---------------------------------------------------------------------------
  // The chunks (the outer loop)
  // ---------------------------------------------------------------------------

  /** The chunk numbered `cid` with text `text` over the characters `start..end`. */
  function ChunkAt(st: Settings, cid: nat, text: string, start: int, end: int): Chunk {
    Chunk(ChunkId(st.docId, cid), text, Some(st.docId + ".txt"),
      CurrentFrom(start, st.sections, 0, None), Some(cid), Some(start), Some(end))
  }

  /** The chunks the outer loop emits from sentence `i` on, numbering them from `cid`,
      with `fin` the clean-up applied to each packed text (`trim` in `makeChunks`): a
      chunk is emitted when the cleaned text is non-empty, and the loop ends once the
      packing has taken the last sentence. */
  function ChunksFrom(fin: string -> string, st: Settings, ss: seq<string>, os: seq<int>, i: nat, cid: nat): seq<Chunk>
    requires i <= |ss| <= |os|
    decreases |ss| - i
  {
    if i == |ss| then []
    else
      var p := Pack(ss, os, st.targetLen, i);
      var here := Emitted(fin, st, ss, os, i, cid);
      if p.next == |ss| then here
      else here + ChunksFrom(fin, st, ss, os, NextStart(ss, i, p.next, st.overlap), cid + |here|)
  }

  /** The chunk, if any, that the outer loop emits for the packing from sentence `i`. */
  function Emitted(fin: string -> string, st: Settings, ss: seq<string>, os: seq<int>, i: nat, cid: nat): (r: seq<Chunk>)
    requires i < |ss| <= |os|
    ensures |r| <= 1
  {
    var p := Pack(ss, os, st.targetLen, i);
    var text := fin(p.text);
    if text != [] then [ChunkAt(st, cid, text, os[i], p.end)] else []
  }

  /** The result of `makeChunks`. */
  function ChunksOf(st: Settings, ss: seq<string>, os: seq<int>): seq<Chunk>
    requires |ss| <= |os|
  {
    ChunksFrom(Trim, st, ss, os, 0, 0)
  }

  // ---------------------------------------------------------------------------
  // makeChunks
  // ---------------------------------------------------------------------------

  /** The inner loop: packs sentences from `i` on while they fit. */
  method PackSentences(ss: seq<string>, os: seq<int>, targetLen: int, i: nat)
    returns (cur: string, end: int, j: nat)
    requires i < |ss| <= |os|
    ensures Packed(cur, end, j) == Pack(ss, os, targetLen, i)
  {
    cur := [];
    end := os[i];
    j := i;
    while j < |ss|
      invariant i <= j <= |ss|
      invariant PackFrom(ss, os, targetLen, cur, end, j) == Pack(ss, os, targetLen, i)
    {
      var s := ss[j];
      if cur != [] && |cur| + 1 + |s| > targetLen {
        break;
      }
      ghost var before := cur;
      if cur != [] {
        cur := cur + "\n";
      }
      cur := cur + s;
      assert cur == AppendLine(before, s);
      end := os[j] + |s|;
      j := j + 1;
    }
  }

  /** The overlap loop: steps back from sentence `j - 1` and returns where the next chunk
      starts. */
  method Rewind(ss: seq<string>, i: nat, j: nat, overlap: int) returns (next: nat)
    requires i < j <= |ss|
    ensures next == NextStart(ss, i, j, overlap)
  {
    var back := 0;
    var k := j - 1;
    while k >= i && back < overlap
      invariant i - 1 <= k < |ss|
      invariant BackFrom(ss, i, k, back, overlap) == BackFrom(ss, i, j - 1, 0, overlap)
      decreases k - i + 1
    {
      back := back + |ss[k]| + 1;
      k := k - 1;
    }
    next := if k + 1 > i + 1 then k + 1 else i + 1;
  }

  method MakeChunks(ss: seq<string>, os: seq<int>, docId: string, sections: seq<Marker>,
                    targetLen: int, overlap: int)
    returns (out: seq<Chunk>)
    requires |ss| <= |os|
    ensures out == ChunksOf(Settings(docId, sections, targetLen, overlap), ss, os)
  {
    ghost var st := Settings(docId, sections, targetLen, overlap);
    out := [];
    var i := 0;
    var cid := 0;
    while i < |ss|
      invariant i <= |ss| && cid == |out|
      invariant out + ChunksFrom(Trim, st, ss, os, i, cid) == ChunksOf(st, ss, os)
      decreases |ss| - i
    {
      var cur, end, j := PackSentences(ss, os, targetLen, i);
      var text := Trim(cur);
      var here := [];
      if text != [] {
        var sec := CurrentSection(os[i], sections);
        here := [Chunk(ChunkId(docId, cid), text, Some(docId + ".txt"), sec, Some(cid), Some(os[i]), Some(end))];
      }
      ChunksStep(Trim, st, ss, os, i, cid, cur, end, j, text, out, here);
      out := out + here;
      cid := cid + |here|;
      if j >= |ss| {
        break;
      }
      i := Rewind(ss, i, j, overlap);
    }
  }

  /** One turn of the outer loop: the packing from sentence `i` ended in `cur`, `end`
      and `j`, its cleaned text is `text`, and `here` is what the turn emits. */
  lemma ChunksStep(fin: string -> string, st: Settings, ss: seq<string>, os: seq<int>, i: nat, cid: nat,
                   cur: string, end: int, j: nat, text: string, out: seq<Chunk>, here: seq<Chunk>)
    requires i < |ss| <= |os|
    requires Packed(cur, end, j) == Pack(ss, os, st.targetLen, i) && text == fin(cur)
    requires here == if text != [] then [ChunkAt(st, cid, text, os[i], end)] else []
    ensures i < j <= |ss|
    ensures out + ChunksFrom(fin, st, ss, os, i, cid) ==
      if j == |ss| then out + here
      else (out + here) + ChunksFrom(fin, st, ss, os, NextStart(ss, i, j, st.overlap), cid + |here|)
  {
    assert here == Emitted(fin, st, ss, os, i, cid);
    if j < |ss| {
      var rest := ChunksFrom(fin, st, ss, os, NextStart(ss, i, j, st.overlap), cid + |here|);
      assert ChunksFrom(fin, st, ss, os, i, cid) == here + rest;
      AppendAssoc(out, here, rest);
    }
  }
}
