/** What `makeChunks` promises, proved about the loop's specification functions. */
module ChunkFacts {
  import opened KotlinStd
  import opened Sections
  import opened ChunkRecord
  import opened Chunker

  // ---------------------------------------------------------------------------
  // Packing one chunk
  // ---------------------------------------------------------------------------

  /** The packing stops at the last sentence or before a sentence that does not fit. */
  lemma {:induction false} PackFromStops(ss: seq<string>, os: seq<int>, tl: int, cur: string, end: int, j: nat)
    requires j <= |ss| <= |os|
    ensures var p := PackFrom(ss, os, tl, cur, end, j);
      p.next == |ss| || Full(p.text, ss[p.next], tl)
    decreases |ss| - j
  {
    if j < |ss| && !Full(cur, ss[j], tl) {
      PackFromStops(ss, os, tl, AppendLine(cur, ss[j]), os[j] + |ss[j]|, j + 1);
    }
  }

  /** The end offset is that of the last sentence taken: its offset plus its length. */
  lemma {:induction false} PackFromEnd(ss: seq<string>, os: seq<int>, tl: int, cur: string, end: int, j: nat)
    requires j <= |ss| <= |os|
    ensures var p := PackFrom(ss, os, tl, cur, end, j);
      if p.next == j then p.text == cur && p.end == end
      else p.end == os[p.next - 1] + |ss[p.next - 1]|
    decreases |ss| - j
  {
    if j < |ss| && !Full(cur, ss[j], tl) {
      PackFromEnd(ss, os, tl, AppendLine(cur, ss[j]), os[j] + |ss[j]|, j + 1);
    }
  }

  /** A non-empty buffer within the target stays within it. */
  lemma {:induction false} PackFromBound(ss: seq<string>, os: seq<int>, tl: int, cur: string, end: int, j: nat)
    requires j <= |ss| <= |os|
    requires cur != [] && |cur| <= tl
    ensures |PackFrom(ss, os, tl, cur, end, j).text| <= tl
    decreases |ss| - j
  {
    if j < |ss| && !Full(cur, ss[j], tl) {
      PackFromBound(ss, os, tl, AppendLine(cur, ss[j]), os[j] + |ss[j]|, j + 1);
    }
  }

  /** A non-empty buffer holding sentences `i..j` joined by newlines goes on holding the
      sentences taken so far, joined by newlines. */
  lemma {:induction false} PackFromJoin(ss: seq<string>, os: seq<int>, tl: int, cur: string, end: int, i: nat, j: nat)
    requires i < j <= |ss| <= |os|
    requires cur != [] && cur == Join("\n", ss[i..j])
    ensures PackFrom(ss, os, tl, cur, end, j).text == Join("\n", ss[i..PackFrom(ss, os, tl, cur, end, j).next])
    decreases |ss| - j
  {
    if j < |ss| && !Full(cur, ss[j], tl) {
      assert ss[i..j + 1] == ss[i..j] + [ss[j]];
      JoinSnoc("\n", ss[i..j], ss[j]);
      PackFromJoin(ss, os, tl, AppendLine(cur, ss[j]), os[j] + |ss[j]|, i, j + 1);
    }
  }

  /** The chunk packed from sentence `i`, when that sentence is non-empty: it holds
      sentences `i..next` joined by newlines, ends where sentence `next - 1` ends, keeps
      within the target length unless it holds one sentence alone, and the next sentence
      (if any) would not have fit. */
  lemma PackFacts(ss: seq<string>, os: seq<int>, tl: int, i: nat)
    requires i < |ss| <= |os| && ss[i] != []
    ensures var p := Pack(ss, os, tl, i);
      && p.text == Join("\n", ss[i..p.next])
      && p.end == os[p.next - 1] + |ss[p.next - 1]|
      && (p.next == i + 1 || |p.text| <= tl)
      && (p.next == |ss| || |p.text| + 1 + |ss[p.next]| > tl)
  {
    var p := Pack(ss, os, tl, i);
    var e := os[i] + |ss[i]|;
    assert p == PackFrom(ss, os, tl, ss[i], e, i + 1);
    assert ss[i..i + 1] == [ss[i]];
    PackFromJoin(ss, os, tl, ss[i], e, i, i + 1);
    PackFromEnd(ss, os, tl, ss[i], e, i + 1);
    PackFromStops(ss, os, tl, ss[i], e, i + 1);
    if p.next == i + 1 {
      assert p.next - 1 == i && p.end == e;
    } else {
      assert p.end == os[p.next - 1] + |ss[p.next - 1]|;
      assert !Full(ss[i], ss[i + 1], tl);
      var two := AppendLine(ss[i], ss[i + 1]);
      assert p == PackFrom(ss, os, tl, two, os[i + 1] + |ss[i + 1]|, i + 2);
      PackFromBound(ss, os, tl, two, os[i + 1] + |ss[i + 1]|, i + 2);
      assert |p.text| <= tl;
    }
  }

  // ---------------------------------------------------------------------------
  // The overlap
  // ---------------------------------------------------------------------------

  /** The characters the backward scan counts for sentences `a..b`: each sentence's
      length plus one. */
  function Weight(ss: seq<string>, a: nat, b: nat): (w: int)
    requires a <= b <= |ss|
    ensures w >= b - a
    decreases b - a
  {
    if a == b then 0 else |ss[a]| + 1 + Weight(ss, a + 1, b)
  }

  lemma {:induction false} BackFromFacts(ss: seq<string>, i: nat, j: nat, k: int, back: int, ov: int)
    requires i < j <= |ss| && i - 1 <= k < j
    requires back == Weight(ss, k + 1, j)
    requires k == j - 1 || Weight(ss, k + 2, j) < ov
    ensures var r := BackFrom(ss, i, k, back, ov);
      && (r == i - 1 || Weight(ss, r + 1, j) >= ov)
      && (r == j - 1 || Weight(ss, r + 2, j) < ov)
    decreases k - i + 1
  {
    if k >= i && back < ov {
      BackFromFacts(ss, i, j, k - 1, back + |ss[k]| + 1, ov);
    }
  }

  /** After a chunk of sentences `i..j`, the next chunk starts at the latest sentence `n`
      from which sentences `n..j` weigh at least `overlap` characters, but never at or
      before `i`: either `n` is `i + 1` or sentences `n..j` weigh at least `overlap`, and
      either `n` is `j` or sentences `n + 1..j` weigh less than `overlap`. */
  lemma NextStartFacts(ss: seq<string>, i: nat, j: nat, ov: int)
    requires i < j <= |ss|
    ensures var n := NextStart(ss, i, j, ov);
      && (n == i + 1 || Weight(ss, n, j) >= ov)
      && (n == j || Weight(ss, n + 1, j) < ov)
  {
    BackFromFacts(ss, i, j, j - 1, 0, ov);
    var k := BackFrom(ss, i, j - 1, 0, ov);
    if k == i - 1 && i + 1 < j {
      assert Weight(ss, i, j) == |ss[i]| + 1 + Weight(ss, i + 1, j);
    }
  }

  /** With no overlap the next chunk starts right after the last sentence taken. */
  lemma NoOverlap(ss: seq<string>, i: nat, j: nat, ov: int)
    requires i < j <= |ss| && ov <= 0
    ensures NextStart(ss, i, j, ov) == j
  {
  }

  /** With a positive overlap, after a chunk of two or more sentences the next chunk
      re-reads at least the last of them. */
  lemma SomeOverlap(ss: seq<string>, i: nat, j: nat, ov: int)
    requires i + 1 < j <= |ss| && ov > 0
    ensures NextStart(ss, i, j, ov) < j
  {
    assert BackFrom(ss, i, j - 1, 0, ov) == BackFrom(ss, i, j - 2, |ss[j - 1]| + 1, ov);
  }

  // ---------------------------------------------------------------------------
  // The chunks
  // ---------------------------------------------------------------------------

  /** Chunks numbered consecutively from `cid`, each id the document id with its number. */
  predicate Numbered(r: seq<Chunk>, docId: string, cid: nat) {
    forall m :: 0 <= m < |r| ==> r[m].chunk == Some(cid + m) && r[m].id == ChunkId(docId, cid + m)
  }

  lemma NumberedCons(here: seq<Chunk>, rest: seq<Chunk>, docId: string, cid: nat)
    requires Numbered(here, docId, cid) && Numbered(rest, docId, cid + |here|)
    ensures Numbered(here + rest, docId, cid)
  {
    var r := here + rest;
    forall m | |here| <= m < |r|
      ensures r[m].chunk == Some(cid + m) && r[m].id == ChunkId(docId, cid + m)
    {
      assert r[m] == rest[m - |here|];
    }
  }

  /** Chunks are numbered consecutively from `cid`, and each id is the document id
      with its number. */
  lemma {:induction false} ChunksNumbered(fin: string -> string, st: Settings, ss: seq<string>, os: seq<int>, i: nat, cid: nat)
    requires i <= |ss| <= |os|
    ensures Numbered(ChunksFrom(fin, st, ss, os, i, cid), st.docId, cid)
    decreases |ss| - i
  {
    if i < |ss| {
      var p := Pack(ss, os, st.targetLen, i);
      var here := Emitted(fin, st, ss, os, i, cid);
      if p.next < |ss| {
        var n := NextStart(ss, i, p.next, st.overlap);
        ChunksNumbered(fin, st, ss, os, n, cid + |here|);
        NumberedCons(here, ChunksFrom(fin, st, ss, os, n, cid + |here|), st.docId, cid);
      }
    }
  }

  /** Chunk `c` was packed from sentence `x` on: its text is that packing cleaned by
      `fin`, it spans from the offset of sentence `x` to the packing's end, and its
      section is the heading in force at its start. */
  predicate FromWindow(fin: string -> string, st: Settings, ss: seq<string>, os: seq<int>, c: Chunk, x: nat)
    requires x < |ss| <= |os|
  {
    var p := Pack(ss, os, st.targetLen, x);
    && c.text == fin(p.text)
    && c.charStart == Some(os[x]) && c.charEnd == Some(p.end)
    && c.section == CurrentFrom(os[x], st.sections, 0, None)
  }

  /** Chunk `c` has non-empty text, the document's file name as source, and was packed
      from a sentence at or after `i`. */
  predicate Shaped(fin: string -> string, st: Settings, ss: seq<string>, os: seq<int>, i: nat, c: Chunk)
    requires |ss| <= |os|
  {
    && c.text != [] && c.source == Some(st.docId + ".txt")
    && exists x :: i <= x < |ss| && FromWindow(fin, st, ss, os, c, x)
  }

  lemma {:induction false} ChunksShaped(fin: string -> string, st: Settings, ss: seq<string>, os: seq<int>, i: nat, cid: nat)
    requires i <= |ss| <= |os|
    ensures forall c :: c in ChunksFrom(fin, st, ss, os, i, cid) ==> Shaped(fin, st, ss, os, i, c)
    decreases |ss| - i
  {
    if i < |ss| {
      var p := Pack(ss, os, st.targetLen, i);
      var here := Emitted(fin, st, ss, os, i, cid);
      if here != [] {
        assert FromWindow(fin, st, ss, os, here[0], i);
      }
      if p.next < |ss| {
        var n := NextStart(ss, i, p.next, st.overlap);
        var rest := ChunksFrom(fin, st, ss, os, n, cid + |here|);
        ChunksShaped(fin, st, ss, os, n, cid + |here|);
        forall c | c in rest ensures Shaped(fin, st, ss, os, i, c) {
          var x :| n <= x < |ss| && FromWindow(fin, st, ss, os, c, x);
        }
        assert ChunksFrom(fin, st, ss, os, i, cid) == here + rest;
      }
    }
  }

  /** Offsets that strictly increase over the first `n` entries. */
  predicate Increasing(os: seq<int>, n: nat)
    requires n <= |os|
  {
    forall a, b :: 0 <= a < b < n ==> os[a] < os[b]
  }

  /** Every chunk starts at offset `lo` or later. */
  predicate StartsFrom(r: seq<Chunk>, lo: int) {
    forall m :: 0 <= m < |r| ==> r[m].charStart.Some? && lo <= r[m].charStart.value
  }

  /** The chunks' starts strictly increase. */
  predicate StartsIncrease(r: seq<Chunk>) {
    forall m, l :: 0 <= m < l < |r| ==>
      r[m].charStart.Some? && r[l].charStart.Some? && r[m].charStart.value < r[l].charStart.value
  }

  lemma OrderedCons(here: seq<Chunk>, rest: seq<Chunk>, lo: int, hi: int)
    requires |here| <= 1 && (here != [] ==> here[0].charStart == Some(lo))
    requires lo < hi && StartsFrom(rest, hi) && StartsIncrease(rest)
    ensures StartsFrom(here + rest, lo) && StartsIncrease(here + rest)
  {
    var r := here + rest;
    forall m | |here| <= m < |r| ensures r[m] == rest[m - |here|] {
    }
  }

  /** Each chunk starts at or after the offset of sentence `i`, and the starts strictly
      increase from one chunk to the next, when the offsets do. */
  lemma {:induction false} ChunksOrdered(fin: string -> string, st: Settings, ss: seq<string>, os: seq<int>, i: nat, cid: nat)
    requires i < |ss| <= |os| && Increasing(os, |ss|)
    ensures StartsFrom(ChunksFrom(fin, st, ss, os, i, cid), os[i])
    ensures StartsIncrease(ChunksFrom(fin, st, ss, os, i, cid))
    decreases |ss| - i
  {
    var p := Pack(ss, os, st.targetLen, i);
    var here := Emitted(fin, st, ss, os, i, cid);
    if p.next < |ss| {
      var n := NextStart(ss, i, p.next, st.overlap);
      ChunksOrdered(fin, st, ss, os, n, cid + |here|);
      OrderedCons(here, ChunksFrom(fin, st, ss, os, n, cid + |here|), os[i], os[n]);
    }
  }

  /** Sentences that are all non-empty and trimmed, as `splitSentencesWithOffsets`
      returns them. */
  predicate Tidy(ss: seq<string>) {
    forall x :: 0 <= x < |ss| ==> ss[x] != [] && IsTrimmed(ss[x])
  }

  /** On tidy sentences, trimming leaves every packed text as it is: sentences `x..y`
      joined by newlines, for some `y > x`. */
  lemma TrimPacked(ss: seq<string>, os: seq<int>, tl: int, x: nat)
    requires x < |ss| <= |os| && Tidy(ss)
    ensures var p := Pack(ss, os, tl, x);
      Trim(p.text) == p.text != [] && p.text == Join("\n", ss[x..p.next])
  {
    var p := Pack(ss, os, tl, x);
    PackFacts(ss, os, tl, x);
    var ws := ss[x..p.next];
    assert forall m :: 0 <= m < |ws| ==> ws[m] == ss[x + m];
    JoinTrimmed("\n", ws);
    TrimOfTrimmed(p.text);
  }

  /** On tidy sentences, the chunk packed from sentence `x` holds sentences `x..y` joined
      by newlines for some `y > x`, spans from the offset of sentence `x` to the end of
      sentence `y - 1`, and keeps within the target length unless it is one sentence. */
  lemma WindowText(st: Settings, ss: seq<string>, os: seq<int>, c: Chunk, x: nat)
    requires x < |ss| <= |os| && Tidy(ss) && FromWindow(Trim, st, ss, os, c, x)
    ensures exists y :: x < y <= |ss| && WindowOf(st, ss, os, c, x, y)
  {
    PackFacts(ss, os, st.targetLen, x);
    TrimPacked(ss, os, st.targetLen, x);
    var y := Pack(ss, os, st.targetLen, x).next;
    assert WindowOf(st, ss, os, c, x, y);
  }

  /** Chunk `c` holds sentences `x..y` joined by newlines, spans from the offset of
      sentence `x` to the end of sentence `y - 1`, and keeps within the target length
      unless it holds one sentence alone. */
  predicate WindowOf(st: Settings, ss: seq<string>, os: seq<int>, c: Chunk, x: nat, y: nat)
    requires x < y <= |ss| <= |os|
  {
    && c.text == Join("\n", ss[x..y])
    && c.charStart == Some(os[x]) && c.charEnd == Some(os[y - 1] + |ss[y - 1]|)
    && (y == x + 1 || |c.text| <= st.targetLen)
  }

  /** On tidy sentences every chunk holds a run of consecutive sentences joined by
      newlines, spans from the first one's offset to the end of the last one, and keeps
      within the target length unless it holds a single sentence. */
  lemma ChunksText(st: Settings, ss: seq<string>, os: seq<int>)
    requires |ss| <= |os| && Tidy(ss)
    ensures forall c :: c in ChunksOf(st, ss, os) ==>
      exists x, y :: 0 <= x < y <= |ss| && WindowOf(st, ss, os, c, x, y)
  {
    ChunksShaped(Trim, st, ss, os, 0, 0);
    forall c | c in ChunksOf(st, ss, os)
      ensures exists x, y :: 0 <= x < y <= |ss| && WindowOf(st, ss, os, c, x, y)
    {
      assert Shaped(Trim, st, ss, os, 0, c);
      var x :| 0 <= x < |ss| && FromWindow(Trim, st, ss, os, c, x);
      WindowText(st, ss, os, c, x);
    }
  }

  /** On tidy sentences with increasing offsets, every chunk ends after it starts, and
      the starts strictly increase from chunk to chunk. */
  lemma ChunksSpan(st: Settings, ss: seq<string>, os: seq<int>)
    requires |ss| <= |os| && Tidy(ss) && Increasing(os, |ss|)
    ensures forall c :: c in ChunksOf(st, ss, os) ==>
      c.charStart.Some? && c.charEnd.Some? && c.charStart.value < c.charEnd.value
    ensures StartsIncrease(ChunksOf(st, ss, os))
  {
    ChunksText(st, ss, os);
    forall c | c in ChunksOf(st, ss, os)
      ensures c.charStart.Some? && c.charEnd.Some? && c.charStart.value < c.charEnd.value
    {
      var x, y :| 0 <= x < y <= |ss| && WindowOf(st, ss, os, c, x, y);
      WindowSpan(st, ss, os, c, x, y);
    }
    if ss != [] {
      ChunksOrdered(Trim, st, ss, os, 0, 0);
    }
  }

  /** A chunk holding sentences `x..y` ends after it starts. */
  lemma WindowSpan(st: Settings, ss: seq<string>, os: seq<int>, c: Chunk, x: nat, y: nat)
    requires x < y <= |ss| <= |os| && Tidy(ss) && Increasing(os, |ss|)
    requires WindowOf(st, ss, os, c, x, y)
    ensures c.charStart.Some? && c.charEnd.Some? && c.charStart.value < c.charEnd.value
  {
    assert ss[y - 1] != [];
    if x < y - 1 {
      assert os[x] < os[y - 1];
    }
  }

  /** When every packing cleans to a non-empty text, some chunk is emitted when there are
      sentences, and the last chunk is the one packed up to the last sentence; no
      sentences give no chunks. */
  lemma {:induction false} ChunksReachEnd(fin: string -> string, st: Settings, ss: seq<string>, os: seq<int>, i: nat, cid: nat)
    requires i <= |ss| <= |os|
    requires forall x :: i <= x < |ss| ==> fin(Pack(ss, os, st.targetLen, x).text) != []
    ensures EndsAt(fin, st, ChunksFrom(fin, st, ss, os, i, cid), ss, os, i)
    decreases |ss| - i
  {
    if i < |ss| {
      var p := Pack(ss, os, st.targetLen, i);
      var here := Emitted(fin, st, ss, os, i, cid);
      assert here == [ChunkAt(st, cid, fin(p.text), os[i], p.end)];
      if p.next < |ss| {
        var n := NextStart(ss, i, p.next, st.overlap);
        ChunksReachEnd(fin, st, ss, os, n, cid + 1);
        EndsAtCons(fin, st, here, ChunksFrom(fin, st, ss, os, n, cid + 1), ss, os, i, n);
      } else {
        assert TakesLast(st, ss, os, i) && FromWindow(fin, st, ss, os, here[0], i);
      }
    }
  }

  /** No chunks from sentence `i` on when `i` is past the last sentence; otherwise some
      chunk, the last one packed, from a sentence at or after `i`, up to the last sentence. */
  predicate EndsAt(fin: string -> string, st: Settings, r: seq<Chunk>, ss: seq<string>, os: seq<int>, i: nat)
    requires i <= |ss| <= |os|
  {
    if i == |ss| then r == []
    else r != [] && PackedToEnd(fin, st, ss, os, r[|r| - 1], i)
  }

  /** Chunk `c` was packed from some sentence at or after `i`, and that packing took the
      last sentence. */
  predicate PackedToEnd(fin: string -> string, st: Settings, ss: seq<string>, os: seq<int>, c: Chunk, i: nat)
    requires |ss| <= |os|
  {
    exists x :: i <= x < |ss| && TakesLast(st, ss, os, x) && FromWindow(fin, st, ss, os, c, x)
  }

  /** The packing from sentence `x` takes every sentence up to the last. */
  predicate TakesLast(st: Settings, ss: seq<string>, os: seq<int>, x: nat)
    requires x < |ss| <= |os|
  {
    Pack(ss, os, st.targetLen, x).next == |ss|
  }

  lemma EndsAtCons(fin: string -> string, st: Settings, here: seq<Chunk>, rest: seq<Chunk>,
                   ss: seq<string>, os: seq<int>, i: nat, n: nat)
    requires i < n < |ss| <= |os| && EndsAt(fin, st, rest, ss, os, n)
    ensures EndsAt(fin, st, here + rest, ss, os, i)
  {
    var c := rest[|rest| - 1];
    assert (here + rest)[|here + rest| - 1] == c;
    var x :| n <= x < |ss| && TakesLast(st, ss, os, x) && FromWindow(fin, st, ss, os, c, x);
  }

  /** No chunks when there are no sentences; otherwise the last chunk holds sentences
      `x..` up to and including the last one, for some `x`, as a window. */
  predicate EndsWithLast(st: Settings, ss: seq<string>, os: seq<int>, r: seq<Chunk>)
    requires |ss| <= |os|
  {
    if ss == [] then r == []
    else r != [] && LastWindow(st, ss, os, r[|r| - 1])
  }

  /** Chunk `c` is a window that ends with the last sentence. */
  predicate LastWindow(st: Settings, ss: seq<string>, os: seq<int>, c: Chunk)
    requires |ss| <= |os|
  {
    exists x :: 0 <= x < |ss| && WindowToEnd(st, ss, os, c, x)
  }

  /** Chunk `c` holds sentences `x..` up to and including the last one, as a window. */
  predicate WindowToEnd(st: Settings, ss: seq<string>, os: seq<int>, c: Chunk, x: nat)
    requires x < |ss| <= |os|
  {
    WindowOf(st, ss, os, c, x, |ss|)
  }

  /** On tidy sentences, there are chunks exactly when there are sentences, and the last
      chunk is a window that ends with the last sentence: it holds that sentence's text
      and ends where it ends. */
  lemma LastChunk(st: Settings, ss: seq<string>, os: seq<int>)
    requires |ss| <= |os| && Tidy(ss)
    ensures EndsWithLast(st, ss, os, ChunksOf(st, ss, os))
  {
    PacksNonEmpty(st, ss, os);
    var r := ChunksFrom(Trim, st, ss, os, 0, 0);
    ChunksReachEnd(Trim, st, ss, os, 0, 0);
    if ss != [] {
      var c := r[|r| - 1];
      assert PackedToEnd(Trim, st, ss, os, c, 0);
      var x :| 0 <= x < |ss| && TakesLast(st, ss, os, x) && FromWindow(Trim, st, ss, os, c, x);
      TrimPacked(ss, os, st.targetLen, x);
      PackedIsWindow(st, ss, os, c, x);
      assert LastWindow(st, ss, os, c);
      assert r != [];
      assert EndsWithLast(st, ss, os, r);
    } else {
      assert r == [];
    }
    assert ChunksOf(st, ss, os) == r;
  }

  /** On tidy sentences every packing has a non-empty trimmed text. */
  lemma PacksNonEmpty(st: Settings, ss: seq<string>, os: seq<int>)
    requires |ss| <= |os| && Tidy(ss)
    ensures forall x :: 0 <= x < |ss| ==> Trim(Pack(ss, os, st.targetLen, x).text) != []
  {
    forall x | 0 <= x < |ss| ensures Trim(Pack(ss, os, st.targetLen, x).text) != [] {
      TrimPacked(ss, os, st.targetLen, x);
    }
  }

  /** On tidy sentences, the chunk packed from sentence `x` up to the last sentence is a
      window that ends with it. */
  lemma PackedIsWindow(st: Settings, ss: seq<string>, os: seq<int>, c: Chunk, x: nat)
    requires x < |ss| <= |os| && ss[x] != [] && TakesLast(st, ss, os, x)
    requires Trim(Pack(ss, os, st.targetLen, x).text) == Pack(ss, os, st.targetLen, x).text
    requires FromWindow(Trim, st, ss, os, c, x)
    ensures WindowToEnd(st, ss, os, c, x)
  {
    PackFacts(ss, os, st.targetLen, x);
  }

  /** Everything `makeChunks` promises about each chunk it emits: the `k`-th chunk is
      numbered `k` with id `docId-0000k`, names `docId.txt` as source, holds non-empty
      trimmed text, and its section is the heading in force at its start. */
  lemma ChunkFields(st: Settings, ss: seq<string>, os: seq<int>)
    requires |ss| <= |os|
    ensures var r := ChunksOf(st, ss, os);
      forall k :: 0 <= k < |r| ==>
        && r[k].chunk == Some(k) && r[k].id == ChunkId(st.docId, k)
        && r[k].source == Some(st.docId + ".txt")
        && r[k].text != [] && IsTrimmed(r[k].text)
        && r[k].charStart.Some? && r[k].section == CurrentFrom(r[k].charStart.value, st.sections, 0, None)
  {
    ChunksNumbered(Trim, st, ss, os, 0, 0);
    ChunksShaped(Trim, st, ss, os, 0, 0);
    FieldsOf(st, ss, os, ChunksOf(st, ss, os));
  }

  lemma FieldsOf(st: Settings, ss: seq<string>, os: seq<int>, r: seq<Chunk>)
    requires |ss| <= |os| && Numbered(r, st.docId, 0)
    requires forall c :: c in r ==> Shaped(Trim, st, ss, os, 0, c)
    ensures forall k :: 0 <= k < |r| ==>
        && r[k].chunk == Some(k) && r[k].id == ChunkId(st.docId, k)
        && r[k].source == Some(st.docId + ".txt")
        && r[k].text != [] && IsTrimmed(r[k].text)
        && r[k].charStart.Some? && r[k].section == CurrentFrom(r[k].charStart.value, st.sections, 0, None)
  {
    forall k | 0 <= k < |r|
      ensures r[k].chunk == Some(k) && r[k].id == ChunkId(st.docId, k)
      ensures r[k].source == Some(st.docId + ".txt")
      ensures r[k].text != [] && IsTrimmed(r[k].text)
      ensures r[k].charStart.Some? && r[k].section == CurrentFrom(r[k].charStart.value, st.sections, 0, None)
    {
      assert r[k] in r;
      var x :| 0 <= x < |ss| && FromWindow(Trim, st, ss, os, r[k], x);
      assert r[k].text == Trim(Pack(ss, os, st.targetLen, x).text);
    }
  }
}
