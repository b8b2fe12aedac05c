/** The first half of `splitSentencesWithOffsets`: a character scan that cuts the text
    into sentences at sentence ends and newlines, trims each one and records where it
    starts. */
module SentenceScan {
  import opened KotlinStd
  import opened Spans

  // ---------------------------------------------------------------------------
  // Sentence boundaries
  // ---------------------------------------------------------------------------

  /** The characters that may end a sentence: . ! ? … and the ideographic full stop. */
  predicate IsTerminal(c: char) {
    c == '.' || c == '!' || c == '?' || c == '\U{2026}' || c == '\U{3002}'
  }

  /** Position `i` ends a sentence: a terminal character that does not sit between two
      digits (so "3.14" stays whole), or a newline. Outside the text the neighbour is NUL. */
  predicate IsBoundary(s: string, i: nat)
    requires i < |s|
  {
    var prev := if i > 0 then s[i - 1] else '\0';
    var next := if i + 1 < |s| then s[i + 1] else '\0';
    if IsTerminal(s[i]) then !(IsDigit(prev) && IsDigit(next)) else s[i] == '\n'
  }

  /** The buffers the scan flushes, from position `i` on, the current one starting at `b`:
      a buffer is flushed after each boundary and once more at the end of the text. */
  function SegmentsFrom(s: string, i: nat, b: nat): (g: seq<Span>)
    requires b <= i <= |s|
    ensures g != [] && g[0].lo == b && g[|g| - 1].hi == |s|
    ensures SpansWithin(g, |s|) && forall k :: 0 <= k < |g| ==> b <= g[k].lo
    ensures Contiguous(g)
    decreases |s| - i
  {
    if i == |s| then [Span(b, |s|)]
    else if IsBoundary(s, i) then
      var rest := SegmentsFrom(s, i + 1, i + 1);
      ContiguousCons(Span(b, i + 1), rest);
      [Span(b, i + 1)] + rest
    else SegmentsFrom(s, i + 1, b)
  }

  function Segments(s: string): seq<Span> {
    SegmentsFrom(s, 0, 0)
  }

  /** A sentence as the scan records it: its trimmed text and the offset `end - |text|`. */
  datatype Sentence = Sentence(text: string, start: int)

  /** The first position in `i..e` that holds no whitespace, or `e`. */
  function SkipSpace(s: string, i: nat, e: nat): (r: nat)
    requires i <= e <= |s|
    ensures i <= r <= e
    decreases e - i
  {
    if i < e && IsWhitespace(s[i]) then SkipSpace(s, i + 1, e) else i
  }

  /** The position just after the last character in `lo..j` that is not whitespace, or `lo`. */
  function BackSpace(s: string, lo: nat, j: nat): (r: nat)
    requires lo <= j <= |s|
    ensures lo <= r <= j
    decreases j - lo
  {
    if lo < j && IsWhitespace(s[j - 1]) then BackSpace(s, lo, j - 1) else j
  }

  /** Where the trimmed buffer `s[b..e]` lies in `s`. */
  function TrimSpan(s: string, b: nat, e: nat): (x: Span)
    requires b <= e <= |s|
    ensures b <= x.lo <= x.hi <= e
  {
    var lo := SkipSpace(s, b, e);
    Span(lo, BackSpace(s, lo, e))
  }

  /** `flush(e)` on a buffer holding `s[b..e]`: the trimmed buffer, if not empty, is
      recorded with the offset `e - |text|`. */
  function Flush(s: string, b: nat, e: nat): (r: seq<Sentence>)
    requires b <= e <= |s|
    ensures |r| <= 1
  {
    var x := TrimSpan(s, b, e);
    if x.lo == x.hi then [] else [Sentence(s[x.lo..x.hi], e - (x.hi - x.lo))]
  }

  /** Flushing each buffer in turn. */
  function FlushAll(s: string, g: seq<Span>): seq<Sentence>
    requires SpansWithin(g, |s|)
    decreases |g|
  {
    if g == [] then [] else Flush(s, g[0].lo, g[0].hi) + FlushAll(s, g[1..])
  }

  /** The sentences of `s` before merging. */
  function Scan(s: string): seq<Sentence> {
    FlushAll(s, Segments(s))
  }

  /** The sentences the scan still records from position `i` on, the buffer holding
      `s[b..i]`: the same as flushing the buffers `SegmentsFrom(s, i, b)`. */
  function ScanFrom(s: string, i: nat, b: nat): seq<Sentence>
    requires b <= i <= |s|
    decreases |s| - i
  {
    if i == |s| then Flush(s, b, |s|)
    else if IsBoundary(s, i) then Flush(s, b, i + 1) + ScanFrom(s, i + 1, i + 1)
    else ScanFrom(s, i + 1, b)
  }

  function Texts(r: seq<Sentence>): (t: seq<string>)
    ensures |t| == |r| && forall k :: 0 <= k < |r| ==> t[k] == r[k].text
  {
    seq(|r|, k requires 0 <= k < |r| => r[k].text)
  }

  function Starts(r: seq<Sentence>): (o: seq<int>)
    ensures |o| == |r| && forall k :: 0 <= k < |r| ==> o[k] == r[k].start
  {
    seq(|r|, k requires 0 <= k < |r| => r[k].start)
  }

  lemma FlushAllCons(s: string, x: Span, g: seq<Span>)
    requires x.lo <= x.hi <= |s| && SpansWithin(g, |s|)
    ensures SpansWithin([x] + g, |s|)
    ensures FlushAll(s, [x] + g) == Flush(s, x.lo, x.hi) + FlushAll(s, g)
  {
    assert ([x] + g)[1..] == g;
  }

  lemma {:induction false} SkipSpaceFacts(s: string, i: nat, e: nat)
    requires i <= e <= |s|
    ensures forall p :: i <= p < SkipSpace(s, i, e) ==> IsWhitespace(s[p])
    ensures SkipSpace(s, i, e) < e ==> !IsWhitespace(s[SkipSpace(s, i, e)])
    decreases e - i
  {
    if i < e && IsWhitespace(s[i]) {
      SkipSpaceFacts(s, i + 1, e);
    }
  }

  lemma {:induction false} BackSpaceFacts(s: string, lo: nat, j: nat)
    requires lo <= j <= |s|
    ensures forall p :: BackSpace(s, lo, j) <= p < j ==> IsWhitespace(s[p])
    ensures lo < BackSpace(s, lo, j) ==> !IsWhitespace(s[BackSpace(s, lo, j) - 1])
    decreases j - lo
  {
    if lo < j && IsWhitespace(s[j - 1]) {
      BackSpaceFacts(s, lo, j - 1);
    }
  }

  /** Only whitespace lies between the buffer's ends and its trimmed part, which starts and
      ends with a character that is not whitespace; an empty trimmed part means an all-blank
      buffer. */
  lemma TrimSpanFacts(s: string, b: nat, e: nat)
    requires b <= e <= |s|
    ensures var x := TrimSpan(s, b, e);
      && (forall p :: b <= p < x.lo ==> IsWhitespace(s[p]))
      && (forall p :: x.hi <= p < e ==> IsWhitespace(s[p]))
      && (x.lo < x.hi ==> !IsWhitespace(s[x.lo]) && !IsWhitespace(s[x.hi - 1]))
      && (x.lo == x.hi ==> x.lo == e)
  {
    var lo := SkipSpace(s, b, e);
    SkipSpaceFacts(s, b, e);
    BackSpaceFacts(s, lo, e);
  }

  lemma {:induction false} SkipSpaceLead(s: string, i: nat, e: nat)
    requires i <= e <= |s|
    ensures SkipSpace(s, i, e) == i + Lead(s[i..e])
    decreases e - i
  {
    if i < e && IsWhitespace(s[i]) {
      SkipSpaceLead(s, i + 1, e);
      assert s[i..e][1..] == s[i + 1..e];
    }
  }

  lemma {:induction false} BackSpaceTrimEnd(s: string, lo: nat, j: nat)
    requires lo <= j <= |s|
    ensures BackSpace(s, lo, j) == lo + |TrimEnd(s[lo..j])|
    decreases j - lo
  {
    if lo < j && IsWhitespace(s[j - 1]) {
      BackSpaceTrimEnd(s, lo, j - 1);
      assert s[lo..j][..j - lo - 1] == s[lo..j - 1];
    }
  }

  /** `TrimSpan` is where `trim()` finds the trimmed buffer. */
  lemma TrimSpanIsTrim(s: string, b: nat, e: nat)
    requires b <= e <= |s|
    ensures s[TrimSpan(s, b, e).lo..TrimSpan(s, b, e).hi] == Trim(s[b..e])
  {
    var lo := SkipSpace(s, b, e);
    SkipSpaceIsTrimStart(s, b, e);
    BackSpaceIsTrimEnd(s, lo, e);
    TrimIsBothEnds(s[b..e]);
  }

  lemma TrimIsBothEnds(x: string)
    ensures Trim(x) == TrimEnd(TrimStart(x))
  {
  }

  lemma SkipSpaceIsTrimStart(s: string, b: nat, e: nat)
    requires b <= e <= |s|
    ensures TrimStart(s[b..e]) == s[SkipSpace(s, b, e)..e]
  {
    SkipSpaceLead(s, b, e);
    TrimStartOfSlice(s, b, e);
  }

  lemma TrimStartOfSlice(s: string, b: nat, e: nat)
    requires b <= e <= |s|
    ensures b + Lead(s[b..e]) <= e && TrimStart(s[b..e]) == s[b + Lead(s[b..e])..e]
  {
    SliceOfSlice(s, b, e, Lead(s[b..e]), e - b);
  }

  /** A slice of the slice `s[b..e]` is a slice of `s`. */
  lemma SliceOfSlice(s: string, b: nat, e: nat, p: nat, q: nat)
    requires b <= e <= |s| && p <= q <= e - b
    ensures s[b..e][p..q] == s[b + p..b + q]
  {
    forall k | 0 <= k < q - p ensures s[b..e][p..q][k] == s[b + p..b + q][k] {
      assert s[b..e][p..q][k] == s[b + p + k];
    }
  }

  lemma BackSpaceIsTrimEnd(s: string, lo: nat, e: nat)
    requires lo <= e <= |s|
    ensures TrimEnd(s[lo..e]) == s[lo..BackSpace(s, lo, e)]
  {
    BackSpaceTrimEnd(s, lo, e);
    TrimEndOfSlice(s, lo, e);
  }

  lemma TrimEndOfSlice(s: string, lo: nat, e: nat)
    requires lo <= e <= |s|
    ensures lo + |TrimEnd(s[lo..e])| <= e && TrimEnd(s[lo..e]) == s[lo..lo + |TrimEnd(s[lo..e])|]
  {
    SliceOfSlice(s, lo, e, 0, |TrimEnd(s[lo..e])|);
  }

  /** What `flush(e)` records for the trimmed buffer `t`: nothing when it is empty, else
      `t` with the offset `e - |t|`. */
  function Record(t: string, e: int): seq<Sentence> {
    if t == [] then [] else [Sentence(t, e - |t|)]
  }

  /** `Flush` records what `flush` records. */
  lemma FlushIsTrim(s: string, b: nat, e: nat)
    requires b <= e <= |s|
    ensures Flush(s, b, e) == Record(Trim(s[b..e]), e)
  {
    TrimSpanIsTrim(s, b, e);
    FlushOfSpan(s, b, e, Trim(s[b..e]));
  }

  lemma FlushOfSpan(s: string, b: nat, e: nat, t: string)
    requires b <= e <= |s| && s[TrimSpan(s, b, e).lo..TrimSpan(s, b, e).hi] == t
    ensures Flush(s, b, e) == Record(t, e)
  {
    var x := TrimSpan(s, b, e);
    assert |t| == x.hi - x.lo;
  }

  /** Appending what one `flush` records to the sentences so far. */
  lemma Records(done: seq<Sentence>, t: string, e: int)
    ensures Texts(done + Record(t, e)) == Texts(done) + (if t == [] then [] else [t])
    ensures Starts(done + Record(t, e)) == Starts(done) + (if t == [] then [] else [e - |t|])
  {
    var f := Record(t, e);
    TextsAppend(done, f);
    StartsAppend(done, f);
    if t != [] {
      SingleTexts(f[0]);
    }
  }

  /** Appending what `flush(e)` records, with `t` the trimmed buffer `s[b..e]`. */
  lemma Flushed(done: seq<Sentence>, s: string, b: nat, e: nat, t: string)
    requires b <= e <= |s| && t == Trim(s[b..e])
    ensures Texts(done + Flush(s, b, e)) == Texts(done) + (if t == [] then [] else [t])
    ensures Starts(done + Flush(s, b, e)) == Starts(done) + (if t == [] then [] else [e - |t|])
  {
    FlushIsTrim(s, b, e);
    Records(done, t, e);
  }

  lemma SingleTexts(x: Sentence)
    ensures Texts([x]) == [x.text] && Starts([x]) == [x.start]
  {
  }

  lemma TextsAppend(a: seq<Sentence>, b: seq<Sentence>)
    ensures Texts(a + b) == Texts(a) + Texts(b)
  {
  }

  lemma StartsAppend(a: seq<Sentence>, b: seq<Sentence>)
    ensures Starts(a + b) == Starts(a) + Starts(b)
  {
  }

  /** `flush(e)` of `splitSentencesWithOffsets`, the buffer holding `s[b..e]`: appends the
      trimmed buffer and its offset to the two lists when it is not empty. `done` stands for
      the sentences flushed so far. */
  method FlushBuffer(s: string, ghost b: nat, e: nat, buf: string, out: seq<string>, ofs: seq<int>,
                     ghost done: seq<Sentence>)
    returns (out': seq<string>, ofs': seq<int>)
    requires b <= e <= |s| && buf == s[b..e]
    requires out == Texts(done) && ofs == Starts(done)
    ensures out' == Texts(done + Flush(s, b, e)) && ofs' == Starts(done + Flush(s, b, e))
  {
    var t := Trim(buf);
    Flushed(done, s, b, e, t);
    out', ofs' := out, ofs;
    if t != [] {
      out' := out + [t];
      ofs' := ofs + [e - |t|];
    }
  }

  /** One step of the scan: a boundary at `i` closes the buffer `s[b..i + 1]`. */
  lemma SegmentsStep(s: string, i: nat, b: nat)
    requires b <= i < |s|
    ensures IsBoundary(s, i) ==>
      FlushAll(s, SegmentsFrom(s, i, b)) == Flush(s, b, i + 1) + FlushAll(s, SegmentsFrom(s, i + 1, i + 1))
    ensures !IsBoundary(s, i) ==> SegmentsFrom(s, i, b) == SegmentsFrom(s, i + 1, b)
  {
    if IsBoundary(s, i) {
      FlushAllCons(s, Span(b, i + 1), SegmentsFrom(s, i + 1, i + 1));
    }
  }

  lemma SliceExtend(s: string, b: nat, i: nat)
    requires b <= i < |s|
    ensures s[b..i] + [s[i]] == s[b..i + 1]
  {
  }

  lemma {:induction false} ScanFromIsFlushAll(s: string, i: nat, b: nat)
    requires b <= i <= |s|
    ensures ScanFrom(s, i, b) == FlushAll(s, SegmentsFrom(s, i, b))
    decreases |s| - i
  {
    if i == |s| {
      LastBuffer(s, b);
    } else {
      SegmentsStep(s, i, b);
      if IsBoundary(s, i) {
        ScanFromIsFlushAll(s, i + 1, i + 1);
      } else {
        ScanFromIsFlushAll(s, i + 1, b);
      }
    }
  }

  /** One pass of the scan loop of `splitSentencesWithOffsets`: append `s[i]` to the buffer
      and flush the buffer if `i` is a boundary. The ghost `b` is where the buffer starts,
      `done` the sentences flushed so far. */
  method ScanStep(s: string, i: nat, buf: string, out: seq<string>, ofs: seq<int>,
                  ghost b: nat, ghost done: seq<Sentence>)
    returns (buf': string, out': seq<string>, ofs': seq<int>, ghost b': nat, ghost done': seq<Sentence>)
    requires b <= i < |s| && buf == s[b..i]
    requires out == Texts(done) && ofs == Starts(done)
    ensures b' <= i + 1 && buf' == s[b'..i + 1]
    ensures out' == Texts(done') && ofs' == Starts(done')
    ensures done' + ScanFrom(s, i + 1, b') == done + ScanFrom(s, i, b)
  {
    var ch := s[i];
    SliceExtend(s, b, i);
    buf' := buf + [ch];
    var boundary := IsBoundary(s, i);
    ScanFromStep(s, i, b, done);
    out', ofs', b', done' := out, ofs, b, done;
    if boundary {
      out', ofs' := FlushBuffer(s, b, i + 1, buf', out, ofs, done);
      buf' := [];
      done' := done + Flush(s, b, i + 1);
      b' := i + 1;
    }
  }

  /** One position of the scan: a boundary moves the flushed buffer into `done`. */
  lemma ScanFromStep(s: string, i: nat, b: nat, done: seq<Sentence>)
    requires b <= i < |s|
    ensures IsBoundary(s, i) ==>
      (done + Flush(s, b, i + 1)) + ScanFrom(s, i + 1, i + 1) == done + ScanFrom(s, i, b)
    ensures !IsBoundary(s, i) ==> ScanFrom(s, i + 1, b) == ScanFrom(s, i, b)
  {
    if IsBoundary(s, i) {
      AppendAssoc(done, Flush(s, b, i + 1), ScanFrom(s, i + 1, i + 1));
    }
  }

  /** The scan loop of `splitSentencesWithOffsets`. */
  method ScanSentences(s: string) returns (out: seq<string>, ofs: seq<int>)
    ensures out == Texts(Scan(s)) && ofs == Starts(Scan(s))
  {
    ScanFromIsFlushAll(s, 0, 0);
    out, ofs := [], [];
    var i: nat := 0;
    var buf: string := [];
    ghost var b: nat := 0;
    ghost var done: seq<Sentence> := [];
    while i < |s|
      invariant b <= i <= |s|
      invariant buf == s[b..i]
      invariant done + ScanFrom(s, i, b) == Scan(s)
      invariant out == Texts(done) && ofs == Starts(done)
    {
      buf, out, ofs, b, done := ScanStep(s, i, buf, out, ofs, b, done);
      i := i + 1;
    }
    out, ofs := FlushBuffer(s, b, |s|, buf, out, ofs, done);
    done := done + Flush(s, b, |s|);
  }

  // ---------------------------------------------------------------------------
  // What the scan promises
  // ---------------------------------------------------------------------------

  /** A property every sentence flushed from the buffers `g` has, once each buffer's has it. */
  lemma {:induction false} FlushAllEvery(s: string, g: seq<Span>, P: Sentence -> bool)
    requires SpansWithin(g, |s|)
    requires forall k :: 0 <= k < |g| ==> forall x :: x in Flush(s, g[k].lo, g[k].hi) ==> P(x)
    ensures forall x :: x in FlushAll(s, g) ==> P(x)
    decreases |g|
  {
    if g != [] {
      assert forall k :: 0 <= k < |g[1..]| ==> g[1..][k] == g[k + 1];
      FlushAllEvery(s, g[1..], P);
    }
  }

  /** What `flush` promises of a sentence taken from the text at or after `b`. */
  predicate WellFormed(s: string, b: nat, x: Sentence) {
    x.text != [] && IsTrimmed(x.text) && b <= x.start && x.start + |x.text| <= |s|
  }

  lemma FlushWellFormed(s: string, b: nat, e: nat)
    requires b <= e <= |s|
    ensures forall x :: x in Flush(s, b, e) ==> WellFormed(s, b, x) && x.start + |x.text| == e
  {
    TrimSpanFacts(s, b, e);
  }

  /** Each sentence ends before the next one starts. */
  predicate Ordered(r: seq<Sentence>) {
    forall k, l :: 0 <= k < l < |r| ==> r[k].start + |r[k].text| <= r[l].start
  }

  /** Every sentence starts at `b` or later. */
  predicate AllFrom(r: seq<Sentence>, b: int) {
    forall k :: 0 <= k < |r| ==> b <= r[k].start
  }

  lemma OrderedCons(f: seq<Sentence>, rest: seq<Sentence>, b: int)
    requires |f| <= 1 && (f != [] ==> f[0].start + |f[0].text| <= b)
    requires AllFrom(rest, b) && Ordered(rest)
    ensures Ordered(f + rest)
  {
    var r := f + rest;
    forall k, l | 0 <= k < l < |r| ensures r[k].start + |r[k].text| <= r[l].start {
      assert r[l] == rest[l - |f|];
      if k >= |f| {
        assert r[k] == rest[k - |f|];
      }
    }
  }

  lemma AllFromCons(f: seq<Sentence>, rest: seq<Sentence>, b: int, c: int)
    requires AllFrom(f, b) && AllFrom(rest, c) && b <= c
    ensures AllFrom(f + rest, b)
  {
    var r := f + rest;
    forall k | 0 <= k < |r| ensures b <= r[k].start {
      if k >= |f| {
        assert r[k] == rest[k - |f|];
      }
    }
  }

  lemma FlushAllHead(s: string, g: seq<Span>)
    requires g != [] && SpansWithin(g, |s|)
    ensures SpansWithin(g[1..], |s|)
    ensures FlushAll(s, g) == Flush(s, g[0].lo, g[0].hi) + FlushAll(s, g[1..])
  {
  }

  lemma FlushBounds(s: string, b: nat, e: nat)
    requires b <= e <= |s|
    ensures AllFrom(Flush(s, b, e), b)
    ensures Flush(s, b, e) != [] ==> Flush(s, b, e)[0].start + |Flush(s, b, e)[0].text| == e
  {
  }

  /** Sentences flushed from buffers that follow each other are in order. */
  lemma {:induction false} FlushAllOrdered(s: string, g: seq<Span>)
    requires SpansWithin(g, |s|)
    requires Contiguous(g)
    ensures g != [] ==> AllFrom(FlushAll(s, g), g[0].lo)
    ensures Ordered(FlushAll(s, g))
    decreases |g|
  {
    if g != [] {
      var f := Flush(s, g[0].lo, g[0].hi);
      FlushAllHead(s, g);
      FlushBounds(s, g[0].lo, g[0].hi);
      ContiguousTail(g);
      FlushAllOrdered(s, g[1..]);
      if g[1..] != [] {
        assert Abuts(g, 1);
        OrderedCons(f, FlushAll(s, g[1..]), g[0].hi);
        AllFromCons(f, FlushAll(s, g[1..]), g[0].lo, g[0].hi);
      } else {
        assert FlushAll(s, g) == f + [];
      }
    }
  }

  /** Every scanned sentence is non-empty, trimmed, lies inside the text, and ends before
      the next one starts. */
  lemma ScanWellFormed(s: string)
    ensures forall x :: x in Scan(s) ==> WellFormed(s, 0, x)
    ensures Ordered(Scan(s))
  {
    var g := Segments(s);
    forall k | 0 <= k < |g| ensures forall x :: x in Flush(s, g[k].lo, g[k].hi) ==> WellFormed(s, 0, x) {
      FlushWellFormed(s, g[k].lo, g[k].hi);
    }
    FlushAllEvery(s, g, x => WellFormed(s, 0, x));
    FlushAllOrdered(s, g);
  }

  /** The scan keeps every non-whitespace character, in order. */
  lemma FlushInk(s: string, b: nat, e: nat)
    requires b <= e <= |s|
    ensures InkAll(Texts(Flush(s, b, e))) == Ink(s[b..e])
  {
    var x := TrimSpan(s, b, e);
    TrimSpanFacts(s, b, e);
    InkSplit(s, b, x.lo, e);
    InkSplit(s, x.lo, x.hi, e);
    BlankInk(s, b, x.lo);
    BlankInk(s, x.hi, e);
    if x.lo < x.hi {
      assert InkAll(Texts(Flush(s, b, e))) == Ink(s[x.lo..x.hi]) + InkAll([]);
    }
  }

  lemma BlankInk(s: string, lo: nat, hi: nat)
    requires lo <= hi <= |s| && forall p :: lo <= p < hi ==> IsWhitespace(s[p])
    ensures Ink(s[lo..hi]) == []
  {
    InkAndVisibleDropWhitespace();
    FilterOfWhitespace(IsInk, s[lo..hi]);
  }

  lemma {:induction false} InkAllAppend(xs: seq<string>, ys: seq<string>)
    ensures InkAll(xs + ys) == InkAll(xs) + InkAll(ys)
    decreases |xs|
  {
    if xs == [] {
      assert xs + ys == ys;
    } else {
      assert (xs + ys)[1..] == xs[1..] + ys;
      InkAllAppend(xs[1..], ys);
    }
  }

  lemma InkSplit(s: string, lo: nat, mid: nat, hi: nat)
    requires lo <= mid <= hi <= |s|
    ensures Ink(s[lo..hi]) == Ink(s[lo..mid]) + Ink(s[mid..hi])
  {
    assert s[lo..hi] == s[lo..mid] + s[mid..hi];
    FilterAppend(IsInk, s[lo..mid], s[mid..hi]);
  }

  /** The buffers from position `i` on keep the non-whitespace characters of `s[b..]`. */
  lemma {:induction false} SegmentsInk(s: string, i: nat, b: nat)
    requires b <= i <= |s|
    ensures InkAll(Texts(FlushAll(s, SegmentsFrom(s, i, b)))) == Ink(s[b..|s|])
    decreases |s| - i
  {
    if i == |s| {
      LastBufferInk(s, b);
    } else if IsBoundary(s, i) {
      SegmentsInk(s, i + 1, i + 1);
      FlushAllCons(s, Span(b, i + 1), SegmentsFrom(s, i + 1, i + 1));
      FlushInk(s, b, i + 1);
      InkStep(s, Flush(s, b, i + 1), FlushAll(s, SegmentsFrom(s, i + 1, i + 1)), b, i + 1, |s|);
    } else {
      SegmentsInk(s, i + 1, b);
    }
  }

  lemma LastBufferInk(s: string, b: nat)
    requires b <= |s|
    ensures InkAll(Texts(FlushAll(s, SegmentsFrom(s, |s|, b)))) == Ink(s[b..|s|])
  {
    LastBuffer(s, b);
    FlushInk(s, b, |s|);
  }

  /** At the end of the text the scan flushes the current buffer and stops. */
  lemma LastBuffer(s: string, b: nat)
    requires b <= |s|
    ensures FlushAll(s, SegmentsFrom(s, |s|, b)) == Flush(s, b, |s|)
  {
    FlushAllCons(s, Span(b, |s|), []);
    assert Flush(s, b, |s|) + [] == Flush(s, b, |s|);
  }

  lemma InkStep(s: string, f: seq<Sentence>, rest: seq<Sentence>, lo: nat, mid: nat, hi: nat)
    requires lo <= mid <= hi <= |s|
    requires InkAll(Texts(f)) == Ink(s[lo..mid]) && InkAll(Texts(rest)) == Ink(s[mid..hi])
    ensures InkAll(Texts(f + rest)) == Ink(s[lo..hi])
  {
    TextsAppend(f, rest);
    InkAllAppend(Texts(f), Texts(rest));
    InkSplit(s, lo, mid, hi);
  }

  /** The sentences hold exactly the non-whitespace characters of the text, in order. */
  lemma ScanInk(s: string)
    ensures InkAll(Texts(Scan(s))) == Ink(s)
  {
    SegmentsInk(s, 0, 0);
    assert s[0..|s|] == s;
  }

  /** A sentence holds no newline, and a terminal character inside it (not at its end)
      sits between two digits. */
  predicate SentenceShape(t: string) {
    '\n' !in t && forall j :: 0 <= j < |t| - 1 ==> BetweenDigits(t, j)
  }

  /** If position `j` holds a terminal character, it sits between two digits. */
  predicate BetweenDigits(t: string, j: nat)
    requires j < |t| - 1
  {
    IsTerminal(t[j]) ==> 0 < j && IsDigit(t[j - 1]) && IsDigit(t[j + 1])
  }

  /** A buffer the scan flushes: no boundary inside it but at its last position, and a
      boundary (or the start of the text) just before it. */
  predicate CleanSpan(s: string, x: Span) {
    && x.lo <= x.hi <= |s|
    && (forall p :: x.lo <= p < x.hi - 1 ==> !IsBoundary(s, p))
    && (x.lo == 0 || IsBoundary(s, x.lo - 1))
  }

  predicate AllClean(s: string, g: seq<Span>) {
    forall k :: 0 <= k < |g| ==> CleanSpan(s, g[k])
  }

  lemma CleanCons(s: string, x: Span, rest: seq<Span>)
    requires CleanSpan(s, x) && AllClean(s, rest)
    ensures AllClean(s, [x] + rest)
  {
    assert forall k :: 0 < k < |rest| + 1 ==> ([x] + rest)[k] == rest[k - 1];
  }

  lemma {:induction false} SegmentsFromClean(s: string, i: nat, b: nat)
    requires b <= i <= |s|
    requires forall p :: b <= p < i ==> !IsBoundary(s, p)
    requires b == 0 || IsBoundary(s, b - 1)
    ensures AllClean(s, SegmentsFrom(s, i, b))
    decreases |s| - i
  {
    if i < |s| {
      if IsBoundary(s, i) {
        SegmentsFromClean(s, i + 1, i + 1);
        assert CleanSpan(s, Span(b, i + 1));
        CleanCons(s, Span(b, i + 1), SegmentsFrom(s, i + 1, i + 1));
      } else {
        SegmentsFromClean(s, i + 1, b);
      }
    }
  }

  /** A boundary character is never a digit. */
  lemma BoundaryNotDigit(s: string, i: nat)
    requires i < |s| && IsBoundary(s, i)
    ensures !IsDigit(s[i])
  {
  }

  /** A terminal character strictly inside a flushed buffer sits between two digits. */
  lemma TerminalInside(s: string, b: nat, e: nat, p: nat)
    requires CleanSpan(s, Span(b, e)) && b <= p < e - 1 && IsTerminal(s[p])
    ensures 0 < p && p + 1 < |s| && IsDigit(s[p - 1]) && IsDigit(s[p + 1])
  {
    assert !IsBoundary(s, p);
  }

  /** The character before a trimmed buffer is whitespace or ends the previous buffer, so
      it is no digit. */
  lemma NotDigitBefore(s: string, b: nat, e: nat, lo: nat)
    requires CleanSpan(s, Span(b, e)) && b <= lo <= e
    requires forall p :: b <= p < lo ==> IsWhitespace(s[p])
    ensures 0 < lo ==> !IsDigit(s[lo - 1])
  {
    if b < lo {
      assert IsWhitespace(s[lo - 1]);
    } else if 0 < b {
      BoundaryNotDigit(s, b - 1);
    }
  }

  /** The trimmed part of a flushed buffer holds no newline: its last character is no
      whitespace, and no other position of the buffer is a boundary. */
  lemma TrimmedNoNewline(s: string, b: nat, e: nat, lo: nat, hi: nat)
    requires CleanSpan(s, Span(b, e)) && b <= lo < hi <= e && !IsWhitespace(s[hi - 1])
    ensures '\n' !in s[lo..hi]
  {
    forall p | lo <= p < hi ensures s[p] != '\n' {
      if p < e - 1 {
        assert !IsBoundary(s, p);
      }
    }
    assert forall j :: 0 <= j < hi - lo ==> s[lo..hi][j] == s[lo + j];
  }

  /** A terminal character inside the trimmed part of a flushed buffer sits between two
      digits of that part. */
  lemma TrimmedDigits(s: string, b: nat, e: nat, lo: nat, hi: nat, j: nat)
    requires CleanSpan(s, Span(b, e)) && b <= lo && lo + j + 1 < hi <= e
    requires forall p :: b <= p < lo ==> IsWhitespace(s[p])
    ensures BetweenDigits(s[lo..hi], j)
  {
    NotDigitBefore(s, b, e, lo);
    if IsTerminal(s[lo + j]) {
      TerminalInside(s, b, e, lo + j);
    }
  }

  lemma FlushShape(s: string, b: nat, e: nat)
    requires CleanSpan(s, Span(b, e))
    ensures forall x :: x in Flush(s, b, e) ==> SentenceShape(x.text)
  {
    var x := TrimSpan(s, b, e);
    if x.lo < x.hi {
      TrimSpanFacts(s, b, e);
      TrimmedNoNewline(s, b, e, x.lo, x.hi);
      forall j | 0 <= j < x.hi - x.lo - 1 ensures BetweenDigits(s[x.lo..x.hi], j) {
        TrimmedDigits(s, b, e, x.lo, x.hi, j);
      }
    }
  }

  /** No scanned sentence holds a newline, and none holds a sentence end except at its
      last character or between two digits. */
  lemma ScanShape(s: string)
    ensures forall x :: x in Scan(s) ==> SentenceShape(x.text)
  {
    var g := Segments(s);
    SegmentsFromClean(s, 0, 0);
    forall k | 0 <= k < |g| ensures forall x :: x in Flush(s, g[k].lo, g[k].hi) ==> SentenceShape(x.text) {
      FlushShape(s, g[k].lo, g[k].hi);
    }
    FlushAllEvery(s, g, (x: Sentence) => SentenceShape(x.text));
  }

  // ---------------------------------------------------------------------------
  // Where a sentence really is: the recorded offset is `end - |text|`
  // ---------------------------------------------------------------------------

  /** The length of the run of whitespace that ends at position `e`. */
  function WsRunBefore(s: string, e: nat): (n: nat)
    requires e <= |s|
    ensures n <= e
  {
    if e > 0 && IsWhitespace(s[e - 1]) then 1 + WsRunBefore(s, e - 1) else 0
  }

  lemma {:induction false} WsRunExact(s: string, m: nat, e: nat)
    requires 0 < m <= e <= |s| && !IsWhitespace(s[m - 1])
    requires forall p :: m <= p < e ==> IsWhitespace(s[p])
    ensures WsRunBefore(s, e) == e - m
    decreases e
  {
    if e > m {
      WsRunExact(s, m, e - 1);
    }
  }

  /** The text of `x` is found in `s` ending `d` characters before `start + |text|`,
      where `d` is the length of the whitespace run directly before that point. */
  predicate Placed(s: string, x: Sentence) {
    && 0 <= x.start && x.start + |x.text| <= |s|
    && var d := WsRunBefore(s, x.start + |x.text|);
    && d <= x.start
    && s[x.start - d..x.start - d + |x.text|] == x.text
  }

  lemma FlushPlaced(s: string, b: nat, e: nat)
    requires b <= e <= |s|
    ensures forall x :: x in Flush(s, b, e) ==> Placed(s, x)
  {
    var x := TrimSpan(s, b, e);
    if x.lo < x.hi {
      TrimSpanFacts(s, b, e);
      WsRunExact(s, x.hi, e);
    }
  }

  /** Each recorded offset points at its sentence shifted right by the whitespace that
      `trim` took off the sentence's end (the newline that ended it, for instance); the
      offset is exact when no whitespace precedes `start + |text|`. */
  lemma ScanPlaced(s: string)
    ensures forall x :: x in Scan(s) ==> Placed(s, x)
  {
    var g := Segments(s);
    forall k | 0 <= k < |g| ensures forall x :: x in Flush(s, g[k].lo, g[k].hi) ==> Placed(s, x) {
      FlushPlaced(s, g[k].lo, g[k].hi);
    }
    FlushAllEvery(s, g, x => Placed(s, x));
  }

  /** "ab\ncd": the newline-ended sentence is recorded one character to the right. */
  lemma ScanNewlineExample()
    ensures Scan("ab\ncd") == [Sentence("ab", 1), Sentence("cd", 3)]
  {
    var s := "ab\ncd";
    ScanFromIsFlushAll(s, 0, 0);
    NewlineScanSteps();
    NewlineFirst();
    NewlineSecond();
  }

  lemma NewlineScanSteps()
    ensures ScanFrom("ab\ncd", 0, 0) == Flush("ab\ncd", 0, 3) + Flush("ab\ncd", 3, 5)
  {
    var s := "ab\ncd";
    assert !IsBoundary(s, 0) && !IsBoundary(s, 1) && IsBoundary(s, 2);
    assert ScanFrom(s, 0, 0) == ScanFrom(s, 2, 0);
    assert !IsBoundary(s, 3) && !IsBoundary(s, 4);
    assert ScanFrom(s, 3, 3) == Flush(s, 3, 5);
  }

  lemma NewlineFirst()
    ensures Flush("ab\ncd", 0, 3) == [Sentence("ab", 1)]
  {
    var s := "ab\ncd";
    assert TrimSpan(s, 0, 3) == Span(0, 2);
    assert s[0..2] == "ab";
  }

  lemma NewlineSecond()
    ensures Flush("ab\ncd", 3, 5) == [Sentence("cd", 3)]
  {
    var s := "ab\ncd";
    assert TrimSpan(s, 3, 5) == Span(3, 5);
    assert s[3..5] == "cd";
  }

  lemma ScanEmpty()
    ensures Scan("") == []
  {
    ScanFromIsFlushAll("", 0, 0);
  }

  lemma {:induction false} ScanFromNoBoundary(s: string, i: nat, b: nat)
    requires b <= i <= |s|
    requires forall p :: i <= p < |s| - 1 ==> !IsBoundary(s, p)
    ensures ScanFrom(s, i, b) == Flush(s, b, |s|)
    decreases |s| - i
  {
    if i < |s| {
      if IsBoundary(s, i) {
        assert i == |s| - 1;
        assert Flush(s, |s|, |s|) == [];
        assert ScanFrom(s, i, b) == Flush(s, b, |s|) + [];
      } else {
        ScanFromNoBoundary(s, i + 1, b);
      }
    }
  }

  /** A text whose only possible sentence end is its last character is one sentence. */
  lemma OneSentence(s: string)
    requires forall p :: 0 <= p < |s| - 1 ==> !IsBoundary(s, p)
    ensures Scan(s) == Flush(s, 0, |s|)
  {
    ScanFromIsFlushAll(s, 0, 0);
    ScanFromNoBoundary(s, 0, 0);
  }

  /** Flushing a whole text that is not blank gives its trimmed form, at `|s| - |text|`. */
  lemma FlushWhole(s: string)
    requires !AllWhitespace(s)
    ensures Flush(s, 0, |s|) == [Sentence(Trim(s), |s| - |Trim(s)|)]
  {
    WholeSlice(s);
    FlushIsTrim(s, 0, |s|);
    TrimEmptyIff(s);
  }

  lemma WholeSlice(s: string)
    ensures s[0..|s|] == s
  {
  }

  /** The decimal point in "3.14." does not end a sentence; only the final period does. */
  lemma DecimalPointExample()
    ensures Scan("3.14.") == [Sentence("3.14.", 0)]
  {
    var s := "3.14.";
    assert !IsBoundary(s, 0) && !IsBoundary(s, 1) && !IsBoundary(s, 2) && !IsBoundary(s, 3);
    OneSentence(s);
    assert TrimSpan(s, 0, 5) == Span(0, 5);
    assert s[0..5] == s;
  }
}
