/** `splitParagraphs`: the normalized text is cut at every run of two or more
    newlines, each piece is trimmed and the blank pieces are dropped. */
module Paragraphs {
  import opened KotlinStd

  /** Positions `i - 1` and `i` both hold a newline. */
  predicate BlankAt(s: string, i: nat)
    requires 0 < i < |s|
  {
    s[i - 1] == '\n' && s[i] == '\n'
  }

  /** No two consecutive newlines, i.e. no blank line inside. */
  predicate NoBlankLine(s: string) {
    forall i :: 0 < i < |s| ==> !BlankAt(s, i)
  }

  /** What `splitParagraphs` promises of each paragraph it returns. */
  predicate IsParagraph(p: string) {
    p != [] && IsTrimmed(p) && NoBlankLine(p)
  }

  lemma NoBlankLineSlice(s: string, a: nat, b: nat)
    requires NoBlankLine(s) && a <= b <= |s|
    ensures NoBlankLine(s[a..b])
  {
    forall i | 0 < i < b - a
      ensures !BlankAt(s[a..b], i)
    {
      assert !BlankAt(s, a + i);
      assert s[a..b][i - 1] == s[a + i - 1] && s[a..b][i] == s[a + i];
    }
  }

  lemma NoBlankLineCons(c: char, x: string)
    requires NoBlankLine(x) && (x == [] || c != '\n' || x[0] != '\n')
    ensures NoBlankLine([c] + x)
  {
    var y := [c] + x;
    forall i | 0 < i < |y| ensures !BlankAt(y, i) {
      if i > 1 {
        assert y[i - 1] == x[i - 2] && y[i] == x[i - 1];
        assert !BlankAt(x, i - 1);
      }
    }
  }

  lemma NoBlankLineTail(x: string)
    requires x != [] && NoBlankLine(x)
    ensures NoBlankLine(x[1..])
  {
    NoBlankLineSlice(x, 1, |x|);
    assert x[1..|x|] == x[1..];
  }

  /** The rest of `s` after the newlines at its front: what the greedy `\n{2,}` consumes. */
  function SkipNewlines(s: string): (r: string)
    ensures |r| <= |s| && r == s[|s| - |r|..]
    ensures r == [] || r[0] != '\n'
    ensures forall i :: 0 <= i < |s| - |r| ==> s[i] == '\n'
    decreases |s|
  {
    if s != [] && s[0] == '\n' then SkipNewlines(s[1..]) else s
  }

  /** `s.split(Regex("\\n{2,}"))`: the pieces between maximal runs of two or more
      newlines, empty pieces included (Kotlin's split keeps trailing empties). */
  function Pieces(s: string): (r: seq<string>)
    ensures |r| >= 1
    ensures |r[0]| <= |s| && r[0] == s[..|r[0]|]
    ensures forall k :: 0 <= k < |r| ==> NoBlankLine(r[k])
    decreases |s|
  {
    if s == [] then [[]]
    else if |s| >= 2 && s[0] == '\n' && s[1] == '\n' then [[]] + Pieces(SkipNewlines(s))
    else
      var t := Pieces(s[1..]);
      assert t[0] == [] || t[0][0] == s[1];
      NoBlankLineCons(s[0], t[0]);
      [[s[0]] + t[0]] + t[1..]
  }

  /** `.map { it.trim() }.filter { it.isNotEmpty() }` */
  function KeepTrimmed(xs: seq<string>): (r: seq<string>)
    requires forall k :: 0 <= k < |xs| ==> NoBlankLine(xs[k])
    ensures |r| <= |xs|
    ensures forall k :: 0 <= k < |r| ==> IsParagraph(r[k])
    decreases |xs|
  {
    if xs == [] then []
    else
      var t := Trim(xs[0]);
      NoBlankLineSlice(xs[0], Lead(xs[0]), Lead(xs[0]) + |t|);
      (if t == [] then [] else [t]) + KeepTrimmed(xs[1..])
  }

  /** `splitParagraphs(s)` */
  function SplitParagraphs(s: string): (r: seq<string>)
    ensures forall k :: 0 <= k < |r| ==> IsParagraph(r[k])
  {
    KeepTrimmed(Pieces(s))
  }

  // ---------------------------------------------------------------------------
  // Nothing but whitespace is lost, and the order is kept
  // ---------------------------------------------------------------------------

  lemma SkipNewlinesInk(s: string)
    ensures Ink(SkipNewlines(s)) == Ink(s)
  {
    var r := SkipNewlines(s);
    var d := |s| - |r|;
    assert s == s[..d] + r;
    InkAndVisibleDropWhitespace();
    FilterAppend(IsInk, s[..d], r);
    assert AllWhitespace(s[..d]) by {
      forall i | 0 <= i < d ensures IsWhitespace(s[..d][i]) {
        assert s[..d][i] == s[i] == '\n';
      }
    }
    FilterOfWhitespace(IsInk, s[..d]);
  }

  lemma {:induction false} InkOfPieces(s: string)
    ensures InkAll(Pieces(s)) == Ink(s)
    decreases |s|
  {
    var r := Pieces(s);
    if s == [] {
    } else if |s| >= 2 && s[0] == '\n' && s[1] == '\n' {
      InkOfPieces(SkipNewlines(s));
      SkipNewlinesInk(s);
      assert r[1..] == Pieces(SkipNewlines(s));
    } else {
      var t := Pieces(s[1..]);
      InkOfPieces(s[1..]);
      assert r[1..] == t[1..];
      FilterAppend(IsInk, [s[0]], t[0]);
      assert s == [s[0]] + s[1..];
      FilterAppend(IsInk, [s[0]], s[1..]);
    }
  }

  lemma KeepTrimmedStep(xs: seq<string>)
    requires xs != []
    requires forall k :: 0 <= k < |xs| ==> NoBlankLine(xs[k])
    ensures Trim(xs[0]) == [] ==> KeepTrimmed(xs) == KeepTrimmed(xs[1..])
    ensures Trim(xs[0]) != [] ==> KeepTrimmed(xs) == [Trim(xs[0])] + KeepTrimmed(xs[1..])
  {
  }

  lemma InkOfFirstKept(xs: seq<string>)
    requires xs != []
    requires forall k :: 0 <= k < |xs| ==> NoBlankLine(xs[k])
    ensures InkAll(KeepTrimmed(xs)) == Ink(xs[0]) + InkAll(KeepTrimmed(xs[1..]))
  {
    var t := Trim(xs[0]);
    var rest := KeepTrimmed(xs[1..]);
    InkAndVisibleDropWhitespace();
    FilterTrim(IsInk, xs[0]);
    KeepTrimmedStep(xs);
    if t != [] {
      assert ([t] + rest)[1..] == rest;
      assert InkAll([t] + rest) == Ink(t) + InkAll(rest);
    }
  }

  lemma {:induction false} InkOfKeepTrimmed(xs: seq<string>)
    requires forall k :: 0 <= k < |xs| ==> NoBlankLine(xs[k])
    ensures InkAll(KeepTrimmed(xs)) == InkAll(xs)
    decreases |xs|
  {
    if xs != [] {
      InkOfKeepTrimmed(xs[1..]);
      InkOfFirstKept(xs);
    }
  }

  lemma InkOfParagraphs(s: string)
    ensures InkAll(SplitParagraphs(s)) == Ink(s)
  {
    InkOfKeepTrimmed(Pieces(s));
    InkOfPieces(s);
  }

  /** Splitting into paragraphs loses only whitespace: rejoined with blank lines, the
      paragraphs carry exactly the non-whitespace characters of the text, in order. */
  lemma SplitParagraphsKeepsInk(s: string)
    ensures Ink(Join("\n\n", SplitParagraphs(s))) == Ink(s)
  {
    BlankLineIsWhitespace();
    InkOfJoin("\n\n", SplitParagraphs(s));
    InkOfParagraphs(s);
  }

  lemma BlankLineIsWhitespace()
    ensures AllWhitespace("\n\n")
  {
  }

  lemma ConsTail<T>(xs: seq<T>)
    requires xs != []
    ensures xs == [xs[0]] + xs[1..]
  {
  }

  // ---------------------------------------------------------------------------
  // Round trip: paragraphs joined with a blank line split back into themselves
  // ---------------------------------------------------------------------------

  lemma {:induction false} PiecesOfParagraph(p: string)
    requires NoBlankLine(p)
    ensures Pieces(p) == [p]
    decreases |p|
  {
    if p != [] {
      NoBlankLineTail(p);
      PiecesOfParagraph(p[1..]);
      if |p| >= 2 {
        assert !BlankAt(p, 1);
      }
      assert p == [p[0]] + p[1..];
    }
  }

  lemma SkipBlankLine(rest: string)
    requires rest == [] || rest[0] != '\n'
    ensures SkipNewlines("\n\n" + rest) == rest
  {
    var s := "\n\n" + rest;
    var r := SkipNewlines(s);
    assert s[0] == '\n' && s[1] == '\n';
  }

  lemma PiecesBlankStart(rest: string)
    requires rest == [] || rest[0] != '\n'
    ensures Pieces("\n\n" + rest) == [[]] + Pieces(rest)
  {
    SkipBlankLine(rest);
  }

  lemma {:induction false} PiecesThen(p: string, rest: string)
    requires NoBlankLine(p) && (p == [] || p[|p| - 1] != '\n')
    requires rest == [] || rest[0] != '\n'
    ensures Pieces(p + "\n\n" + rest) == [p] + Pieces(rest)
    decreases |p|
  {
    var s := p + "\n\n" + rest;
    if p == [] {
      assert s == "\n\n" + rest;
      PiecesBlankStart(rest);
    } else {
      NoBlankLineTail(p);
      var s' := p[1..] + "\n\n" + rest;
      PiecesThen(p[1..], rest);
      ConsSplit(p, "\n\n", rest);
      if p[0] == '\n' {
        assert |p| >= 2 && s'[0] == p[1] && !BlankAt(p, 1);
      }
      PiecesConsWith(p[0], s', p[1..], Pieces(rest));
      assert [p[0]] + p[1..] == p;
    }
  }

  lemma ConsSplit(a: string, b: string, c: string)
    requires a != []
    ensures a + b + c == [a[0]] + (a[1..] + b + c)
  {
    assert a == [a[0]] + a[1..];
  }

  lemma PiecesConsWith(c: char, x: string, first: string, more: seq<string>)
    requires Pieces(x) == [first] + more
    requires !(c == '\n' && x != [] && x[0] == '\n')
    ensures Pieces([c] + x) == [[c] + first] + more
  {
    var s := [c] + x;
    assert s[1..] == x;
    PiecesCons(s);
  }

  /** A piece grows by the first character when the text does not start with a blank line. */
  lemma PiecesCons(s: string)
    requires s != [] && !(|s| >= 2 && s[0] == '\n' && s[1] == '\n')
    ensures Pieces(s) == [[s[0]] + Pieces(s[1..])[0]] + Pieces(s[1..])[1..]
  {
  }

  lemma {:induction false} PiecesOfJoin(ps: seq<string>)
    requires ps != []
    requires forall k :: 0 <= k < |ps| ==> IsParagraph(ps[k])
    ensures Pieces(Join("\n\n", ps)) == ps
    decreases |ps|
  {
    if |ps| == 1 {
      PiecesOfParagraph(ps[0]);
    } else {
      var rest := Join("\n\n", ps[1..]);
      PiecesOfJoin(ps[1..]);
      assert rest[0] == ps[1][0];
      PiecesThen(ps[0], rest);
      assert ps == [ps[0]] + ps[1..];
    }
  }

  lemma {:induction false} KeepTrimmedOfParagraphs(ps: seq<string>)
    requires forall k :: 0 <= k < |ps| ==> IsParagraph(ps[k])
    ensures forall k :: 0 <= k < |ps| ==> NoBlankLine(ps[k])
    ensures KeepTrimmed(ps) == ps
    decreases |ps|
  {
    assert forall k :: 0 <= k < |ps| ==> NoBlankLine(ps[k]);
    if ps != [] {
      TrimOfTrimmed(ps[0]);
      KeepTrimmedOfParagraphs(ps[1..]);
      KeepTrimmedStep(ps);
      ConsTail(ps);
    }
  }

  /** Paragraphs joined with "\n\n" split back into exactly the same paragraphs. */
  lemma SplitParagraphsOfJoin(ps: seq<string>)
    requires forall k :: 0 <= k < |ps| ==> IsParagraph(ps[k])
    ensures SplitParagraphs(Join("\n\n", ps)) == ps
  {
    if ps == [] {
      assert Pieces([]) == [[]];
    } else {
      PiecesOfJoin(ps);
      KeepTrimmedOfParagraphs(ps);
    }
  }

  /** Splitting the rejoined paragraphs changes nothing. */
  lemma SplitParagraphsIdempotent(s: string)
    ensures SplitParagraphs(Join("\n\n", SplitParagraphs(s))) == SplitParagraphs(s)
  {
    SplitParagraphsOfJoin(SplitParagraphs(s));
  }
}
