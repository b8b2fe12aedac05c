/** `detectSections` and `currentSection`: the heading markers found in the paragraphs,
    and the heading in force at a character offset. */
module Sections {
  import opened KotlinStd

  /** A heading marker: where its paragraph starts in the joined text, and the heading. */
  datatype Marker = Marker(offset: int, name: string)

  // ---------------------------------------------------------------------------
  // The two heading patterns
  // ---------------------------------------------------------------------------

  /** Positions `i` and `i + 1` both hold a dot. */
  predicate DotDot(t: string, i: nat)
    requires i + 1 < |t|
  {
    t[i] == '.' && t[i + 1] == '.'
  }

  /** The pattern `\d+(\.\d+)*`: groups of digits separated by single dots. */
  predicate IsNumbering(t: string) {
    && t != [] && IsDigit(t[0]) && IsDigit(t[|t| - 1])
    && (forall i :: 0 <= i < |t| ==> IsDigit(t[i]) || t[i] == '.')
    && (forall i :: 0 <= i < |t| - 1 ==> !DotDot(t, i))
  }

  predicate AllRegexSpace(t: string) {
    forall i :: 0 <= i < |t| ==> IsRegexSpace(t[i])
  }

  /** Every character is one that the pattern `.` matches. */
  predicate NoLineTerminator(t: string) {
    forall i :: 0 <= i < |t| ==> !IsLineTerminator(t[i])
  }

  /** `t` splits at `n` and `k` into a numbering, a run of `\s` and a non-empty rest. */
  predicate NumberedAt(t: string, n: nat, k: nat) {
    && 0 < n < k < |t|
    && IsNumbering(t[..n]) && AllRegexSpace(t[n..k]) && NoLineTerminator(t[k..])
  }

  /** `t.matches("^\\d+(\\.\\d+)*\\s+.+$")`, as in "1.2 Scope". */
  predicate IsNumberedHeading(t: string) {
    exists n: nat, k: nat | n < k < |t| :: NumberedAt(t, n, k)
  }

  /** The character class `[가-힣A-Za-z0-9]`: a Hangul syllable, an ASCII letter or digit. */
  predicate IsHeadingStart(c: char) {
    ('\U{AC00}' <= c <= '\U{D7A3}') || ('A' <= c <= 'Z') || ('a' <= c <= 'z') || ('0' <= c <= '9')
  }

  /** `t.matches("^[가-힣A-Za-z0-9].{0,78}$")`. */
  predicate IsPlainHeading(t: string) {
    1 <= |t| <= 79 && IsHeadingStart(t[0]) && NoLineTerminator(t[1..])
  }

  /** The heading test of `detectSections`, on the trimmed first line of a paragraph. */
  predicate LooksHeading(first: string) {
    2 <= |first| <= 80 && (IsNumberedHeading(first) || IsPlainHeading(first))
  }

  /** `p.lines().first().trim()`. */
  function FirstLine(p: string): string {
    Trim(Lines(p)[0])
  }

  /** The first line holds no line break. */
  lemma FirstLineOneLine(p: string)
    ensures '\n' !in FirstLine(p) && '\r' !in FirstLine(p)
  {
    var l := Lines(p)[0];
    TrimKeepsOut(l, '\n');
    TrimKeepsOut(l, '\r');
  }

  /** `s.take(n)`. */
  function Take(s: string, n: nat): (r: string)
    ensures |r| <= n && r <= s
    ensures |s| <= n ==> r == s
  {
    if |s| <= n then s else s[..n]
  }

  // ---------------------------------------------------------------------------
  // detectSections
  // ---------------------------------------------------------------------------

  /** The heading paragraph `p` announces, if any: its trimmed first line cut to 120
      characters, when that line looks like a heading. */
  function HeadingOf(p: string): Option<string> {
    var first := FirstLine(p);
    if LooksHeading(first) then Some(Take(first, 120)) else None
  }

  /** Where paragraph `k` starts, counting two characters for each separator "\n\n". */
  function ParaOffset(ps: seq<string>, k: nat): (o: nat)
    requires k <= |ps|
    ensures k > 0 ==> o >= 2 * k
  {
    if k == 0 then 0 else ParaOffset(ps, k - 1) + |ps[k - 1]| + 2
  }

  /** The markers of paragraphs `k..`, for the heading test `h`: one marker at the
      paragraph's offset for each paragraph `h` finds a heading in. */
  function MarkersFrom(h: string -> Option<string>, ps: seq<string>, k: nat): seq<Marker>
    requires k <= |ps|
    decreases |ps| - k
  {
    if k == |ps| then []
    else
      var rest := MarkersFrom(h, ps, k + 1);
      match h(ps[k])
      case Some(name) => [Marker(ParaOffset(ps, k), name)] + rest
      case None => rest
  }

  /** The result of `detectSections(ps)`. */
  function SectionsOf(ps: seq<string>): seq<Marker> {
    MarkersFrom(HeadingOf, ps, 0)
  }

  /** The loop of `detectSections`, for the heading test `h`: walk the paragraphs,
      keeping the offset where the current one starts, and record a marker for each
      paragraph that announces a heading. */
  method CollectMarkers(h: string -> Option<string>, ps: seq<string>) returns (res: seq<Marker>)
    ensures res == MarkersFrom(h, ps, 0)
  {
    res := [];
    var offset := 0;
    for k := 0 to |ps|
      invariant offset == ParaOffset(ps, k)
      invariant res + MarkersFrom(h, ps, k) == MarkersFrom(h, ps, 0)
    {
      MarkersStep(h, ps, k, res);
      var heading := h(ps[k]);
      if heading.Some? {
        res := res + [Marker(offset, heading.value)];
      }
      offset := offset + |ps[k]| + 2;
    }
  }

  /** `detectSections`: the loop with the heading test of `HeadingOf`. */
  method DetectSections(ps: seq<string>) returns (res: seq<Marker>)
    ensures res == SectionsOf(ps)
  {
    res := CollectMarkers(HeadingOf, ps);
  }

  /** One paragraph's step of the loop. */
  lemma MarkersStep(h: string -> Option<string>, ps: seq<string>, k: nat, res: seq<Marker>)
    requires k < |ps|
    ensures res + MarkersFrom(h, ps, k) ==
      (if h(ps[k]).Some? then res + [Marker(ParaOffset(ps, k), h(ps[k]).value)] else res) + MarkersFrom(h, ps, k + 1)
  {
  }

  // ---------------------------------------------------------------------------
  // What detectSections promises
  // ---------------------------------------------------------------------------

  /** A heading has at most 80 characters, so `take(120)` keeps all of it. */
  lemma TakeKeepsHeading(first: string)
    requires LooksHeading(first)
    ensures Take(first, 120) == first
  {
  }

  /** A paragraph announces a heading exactly when its trimmed first line looks like one,
      and the heading is that whole line: 2 to 80 characters, trimmed, one line. */
  lemma HeadingOfFacts(p: string)
    ensures HeadingOf(p).Some? <==> LooksHeading(FirstLine(p))
    ensures HeadingOf(p).Some? ==> HeadingOf(p).value == FirstLine(p)
    ensures HeadingOf(p).Some? ==>
      2 <= |HeadingOf(p).value| <= 80 && IsTrimmed(HeadingOf(p).value) && '\n' !in HeadingOf(p).value
  {
    if LooksHeading(FirstLine(p)) {
      TakeKeepsHeading(FirstLine(p));
      FirstLineOneLine(p);
    }
  }

  lemma {:induction false} ParaOffsetGrows(ps: seq<string>, j: nat, k: nat)
    requires j < k <= |ps|
    ensures ParaOffset(ps, j) + |ps[j]| + 2 <= ParaOffset(ps, k)
    decreases k - j
  {
    if j + 1 < k {
      ParaOffsetGrows(ps, j, k - 1);
    }
  }

  /** Every marker from paragraphs `k..` is one a paragraph announces, at that
      paragraph's offset. */
  lemma {:induction false} MarkersSound(h: string -> Option<string>, ps: seq<string>, k: nat)
    requires k <= |ps|
    ensures forall m :: m in MarkersFrom(h, ps, k) ==>
      exists j :: k <= j < |ps| && h(ps[j]) == Some(m.name) && m.offset == ParaOffset(ps, j)
    decreases |ps| - k
  {
    if k < |ps| {
      MarkersSound(h, ps, k + 1);
    }
  }

  /** The markers from paragraphs `k..` number at most one per paragraph, lie at or after
      paragraph `k`, and come in strictly increasing offset order. */
  lemma {:induction false} MarkersOrdered(h: string -> Option<string>, ps: seq<string>, k: nat)
    requires k <= |ps|
    ensures |MarkersFrom(h, ps, k)| <= |ps| - k
    ensures forall i :: 0 <= i < |MarkersFrom(h, ps, k)| ==> ParaOffset(ps, k) <= MarkersFrom(h, ps, k)[i].offset
    ensures forall i, l :: 0 <= i < l < |MarkersFrom(h, ps, k)| ==>
      MarkersFrom(h, ps, k)[i].offset < MarkersFrom(h, ps, k)[l].offset
    decreases |ps| - k
  {
    if k < |ps| {
      MarkersOrdered(h, ps, k + 1);
      ParaOffsetGrows(ps, k, k + 1);
      var rest := MarkersFrom(h, ps, k + 1);
      var head := if h(ps[k]).Some? then [Marker(ParaOffset(ps, k), h(ps[k]).value)] else [];
      var r := head + rest;
      assert MarkersFrom(h, ps, k) == r;
      forall i | |head| <= i < |r| ensures ParaOffset(ps, k) < r[i].offset {
        assert r[i] == rest[i - |head|];
      }
    }
  }

  /** Every paragraph that announces a heading contributes its marker. */
  lemma {:induction false} MarkersComplete(h: string -> Option<string>, ps: seq<string>, k: nat, j: nat)
    requires k <= j < |ps| && h(ps[j]).Some?
    ensures Marker(ParaOffset(ps, j), h(ps[j]).value) in MarkersFrom(h, ps, k)
    decreases j - k
  {
    if j > k {
      MarkersComplete(h, ps, k + 1, j);
    }
  }

  /** The markers are exactly those of the paragraphs whose trimmed first line looks like
      a heading, at most one per paragraph, at the paragraph's offset, in strictly
      increasing offset order; each heading is one trimmed line of 2 to 80 characters. */
  lemma SectionsFacts(ps: seq<string>)
    ensures |SectionsOf(ps)| <= |ps|
    ensures forall m :: m in SectionsOf(ps) <==>
      exists j :: 0 <= j < |ps| && LooksHeading(FirstLine(ps[j])) && m == Marker(ParaOffset(ps, j), FirstLine(ps[j]))
    ensures forall i, l :: 0 <= i < l < |SectionsOf(ps)| ==> SectionsOf(ps)[i].offset < SectionsOf(ps)[l].offset
    ensures forall m :: m in SectionsOf(ps) ==> 2 <= |m.name| <= 80 && IsTrimmed(m.name) && '\n' !in m.name
  {
    var r := SectionsOf(ps);
    MarkersSound(HeadingOf, ps, 0);
    MarkersOrdered(HeadingOf, ps, 0);
    forall j | 0 <= j < |ps| {
      HeadingOfFacts(ps[j]);
    }
    forall j | 0 <= j < |ps| && LooksHeading(FirstLine(ps[j]))
      ensures Marker(ParaOffset(ps, j), FirstLine(ps[j])) in r
    {
      MarkersComplete(HeadingOf, ps, 0, j);
    }
    forall m | m in r
      ensures exists j :: 0 <= j < |ps| && LooksHeading(FirstLine(ps[j])) && m == Marker(ParaOffset(ps, j), FirstLine(ps[j]))
    {
      var j :| 0 <= j < |ps| && HeadingOf(ps[j]) == Some(m.name) && m.offset == ParaOffset(ps, j);
    }
  }

  /** Paragraph `k` sits at `ParaOffset(ps, k)` in the paragraphs joined with "\n\n". */
  lemma {:induction false} ParaOffsetInJoin(ps: seq<string>, k: nat)
    requires k < |ps|
    ensures ParaOffset(ps, k) + |ps[k]| <= |Join("\n\n", ps)|
    ensures Join("\n\n", ps)[ParaOffset(ps, k)..ParaOffset(ps, k) + |ps[k]|] == ps[k]
    decreases k
  {
    if k == 0 {
      if |ps| > 1 {
        assert Join("\n\n", ps) == ps[0] + ("\n\n" + Join("\n\n", ps[1..]));
      }
    } else {
      ParaOffsetInJoin(ps[1..], k - 1);
      ParaOffsetTail(ps, k);
      assert Join("\n\n", ps) == ps[0] + "\n\n" + Join("\n\n", ps[1..]);
      var pre := ps[0] + "\n\n";
      JoinShift(pre, Join("\n\n", ps[1..]), ParaOffset(ps[1..], k - 1), |ps[k]|);
    }
  }

  lemma {:induction false} ParaOffsetTail(ps: seq<string>, k: nat)
    requires 0 < k <= |ps|
    ensures ParaOffset(ps, k) == |ps[0]| + 2 + ParaOffset(ps[1..], k - 1)
    decreases k
  {
    if k > 1 {
      ParaOffsetTail(ps, k - 1);
    }
  }

  lemma JoinShift(pre: string, rest: string, o: nat, n: nat)
    requires o + n <= |rest|
    ensures (pre + rest)[|pre| + o..|pre| + o + n] == rest[o..o + n]
  {
  }

  /** "1.2 Scope" is a heading by the numbered pattern. */
  lemma NumberedExample()
    ensures LooksHeading("1.2 Scope")
  {
    var t := "1.2 Scope";
    assert t[..3] == "1.2" && t[3..4] == " " && t[4..] == "Scope";
    assert NumberedAt(t, 3, 4);
  }

  /** "- item" is no heading: it starts with neither a digit nor a letter. */
  lemma ListItemExample()
    ensures !LooksHeading("- item")
  {
    var t := "- item";
    forall n: nat, k: nat | n < k < |t| ensures !NumberedAt(t, n, k) {
      if 0 < n {
        assert t[..n][0] == t[0];
      }
    }
  }

  // ---------------------------------------------------------------------------
  // currentSection
  // ---------------------------------------------------------------------------

  /** The loop of `currentSection` from marker `k` on, `cur` holding the name so far: it
      takes each marker at or before `t` and stops at the first one after `t`. */
  function CurrentFrom(t: int, ms: seq<Marker>, k: nat, cur: Option<string>): Option<string>
    requires k <= |ms|
    decreases |ms| - k
  {
    if k == |ms| then cur
    else if ms[k].offset <= t then CurrentFrom(t, ms, k + 1, Some(ms[k].name))
    else cur
  }

  /** The number of leading markers at or before `t`. */
  function PrefixAtMost(t: int, ms: seq<Marker>, k: nat): (p: nat)
    requires k <= |ms|
    ensures k <= p <= |ms|
    decreases |ms| - k
  {
    if k < |ms| && ms[k].offset <= t then PrefixAtMost(t, ms, k + 1) else k
  }

  method CurrentSection(t: int, ms: seq<Marker>) returns (cur: Option<string>)
    ensures cur == CurrentFrom(t, ms, 0, None)
  {
    cur := None;
    var k := 0;
    while k < |ms|
      invariant k <= |ms|
      invariant CurrentFrom(t, ms, k, cur) == CurrentFrom(t, ms, 0, None)
    {
      if ms[k].offset <= t {
        cur := Some(ms[k].name);
      } else {
        break;
      }
      k := k + 1;
    }
  }

  lemma {:induction false} CurrentIsPrefixEnd(t: int, ms: seq<Marker>, k: nat, cur: Option<string>)
    requires k <= |ms|
    requires k > 0 ==> cur == Some(ms[k - 1].name)
    ensures var p := PrefixAtMost(t, ms, k);
      CurrentFrom(t, ms, k, cur) == if p == k then cur else Some(ms[p - 1].name)
    decreases |ms| - k
  {
    if k < |ms| && ms[k].offset <= t {
      CurrentIsPrefixEnd(t, ms, k + 1, Some(ms[k].name));
    }
  }

  lemma {:induction false} PrefixAtMostFacts(t: int, ms: seq<Marker>, k: nat)
    requires k <= |ms|
    ensures forall j :: k <= j < PrefixAtMost(t, ms, k) ==> ms[j].offset <= t
    ensures PrefixAtMost(t, ms, k) < |ms| ==> ms[PrefixAtMost(t, ms, k)].offset > t
    decreases |ms| - k
  {
    if k < |ms| && ms[k].offset <= t {
      PrefixAtMostFacts(t, ms, k + 1);
    }
  }

  /** `currentSection(t, ms)` is the name of the last marker of the longest run of leading
      markers at or before `t`; null when there is no such marker. */
  lemma CurrentSectionFacts(t: int, ms: seq<Marker>)
    ensures var p := PrefixAtMost(t, ms, 0);
      && (forall j :: 0 <= j < p ==> ms[j].offset <= t)
      && (p < |ms| ==> ms[p].offset > t)
      && CurrentFrom(t, ms, 0, None) == if p == 0 then None else Some(ms[p - 1].name)
    ensures CurrentFrom(t, ms, 0, None) == None <==> ms == [] || ms[0].offset > t
  {
    PrefixAtMostFacts(t, ms, 0);
    CurrentIsPrefixEnd(t, ms, 0, None);
  }

  /** On markers in increasing offset order, `currentSection` finds the nearest heading at
      or before `t`: every later marker lies after `t`. */
  lemma CurrentSectionSorted(t: int, ms: seq<Marker>)
    requires forall i, l :: 0 <= i < l < |ms| ==> ms[i].offset < ms[l].offset
    ensures CurrentFrom(t, ms, 0, None) != None ==>
      exists k :: 0 <= k < |ms| && ms[k].offset <= t && CurrentFrom(t, ms, 0, None) == Some(ms[k].name)
        && forall l :: k < l < |ms| ==> ms[l].offset > t
  {
    CurrentSectionFacts(t, ms);
    var p := PrefixAtMost(t, ms, 0);
    if p > 0 {
      assert ms[p - 1].offset <= t;
    }
  }

  /** For the markers the heading test `h` finds, `currentSection(t, ...)` is null exactly
      when no heading paragraph starts at or before `t`, and otherwise names the heading of
      the last paragraph that does. */
  lemma NearestMarker(h: string -> Option<string>, ps: seq<string>, t: int)
    ensures CurrentFrom(t, MarkersFrom(h, ps, 0), 0, None) == None <==>
      forall j :: 0 <= j < |ps| && h(ps[j]).Some? ==> ParaOffset(ps, j) > t
    ensures CurrentFrom(t, MarkersFrom(h, ps, 0), 0, None).Some? ==>
      exists j :: LastHeadingAt(h, ps, t, j) && h(ps[j]) == CurrentFrom(t, MarkersFrom(h, ps, 0), 0, None)
  {
    var ms := MarkersFrom(h, ps, 0);
    CurrentSectionFacts(t, ms);
    MarkersOrdered(h, ps, 0);
    MarkersSound(h, ps, 0);
    forall j | 0 <= j < |ps| && h(ps[j]).Some? ensures Marker(ParaOffset(ps, j), h(ps[j]).value) in ms {
      MarkersComplete(h, ps, 0, j);
    }
    NearestOf(h, ps, ms, t, PrefixAtMost(t, ms, 0));
  }

  /** The markers `ms` list, in increasing offset order, exactly the headings `h` finds in
      the paragraphs, at their offsets. */
  predicate Lists(h: string -> Option<string>, ps: seq<string>, ms: seq<Marker>) {
    && (forall i, l :: 0 <= i < l < |ms| ==> ms[i].offset < ms[l].offset)
    && (forall m :: m in ms ==> exists j :: 0 <= j < |ps| && h(ps[j]) == Some(m.name) && m.offset == ParaOffset(ps, j))
    && (forall j :: 0 <= j < |ps| && h(ps[j]).Some? ==> Marker(ParaOffset(ps, j), h(ps[j]).value) in ms)
  }

  /** With `p` the number of leading markers at or before `t`: `p` is zero exactly when no
      heading paragraph starts at or before `t`, and otherwise marker `p - 1` is that of the
      last heading paragraph that does. */
  lemma NearestOf(h: string -> Option<string>, ps: seq<string>, ms: seq<Marker>, t: int, p: nat)
    requires Lists(h, ps, ms) && p <= |ms|
    requires forall j :: 0 <= j < p ==> ms[j].offset <= t
    requires p < |ms| ==> ms[p].offset > t
    ensures p == 0 <==> forall j :: 0 <= j < |ps| && h(ps[j]).Some? ==> ParaOffset(ps, j) > t
    ensures p > 0 ==> exists j :: LastHeadingAt(h, ps, t, j) && h(ps[j]) == Some(ms[p - 1].name)
  {
    if p == 0 {
      forall j | 0 <= j < |ps| && h(ps[j]).Some? ensures ParaOffset(ps, j) > t {
        var q :| 0 <= q < |ms| && ms[q] == Marker(ParaOffset(ps, j), h(ps[j]).value);
      }
    } else {
      var j := NearestSome(h, ps, ms, t, p);
    }
  }

  /** Paragraph `j` is the last heading paragraph, for the heading test `h`, that starts
      at or before `t`. */
  predicate LastHeadingAt(h: string -> Option<string>, ps: seq<string>, t: int, j: int) {
    && 0 <= j < |ps| && h(ps[j]).Some? && ParaOffset(ps, j) <= t
    && forall l :: j < l < |ps| && h(ps[l]).Some? ==> ParaOffset(ps, l) > t
  }

  lemma NearestSome(h: string -> Option<string>, ps: seq<string>, ms: seq<Marker>, t: int, p: nat) returns (j: nat)
    requires Lists(h, ps, ms) && 0 < p <= |ms|
    requires ms[p - 1].offset <= t
    requires p < |ms| ==> ms[p].offset > t
    ensures LastHeadingAt(h, ps, t, j) && h(ps[j]) == Some(ms[p - 1].name)
  {
    assert ms[p - 1] in ms;
    j :| 0 <= j < |ps| && h(ps[j]) == Some(ms[p - 1].name) && ms[p - 1].offset == ParaOffset(ps, j);
    forall l | j < l < |ps| && h(ps[l]).Some? ensures ParaOffset(ps, l) > t {
      var q :| 0 <= q < |ms| && ms[q] == Marker(ParaOffset(ps, l), h(ps[l]).value);
      ParaOffsetGrows(ps, j, l);
      MarkerOrder(ms, q, p - 1);
      MarkerOrder(ms, p - 1, q);
      if p < |ms| {
        MarkerOrder(ms, p, q);
      }
    }
  }

  lemma MarkerOrder(ms: seq<Marker>, a: nat, b: nat)
    requires forall i, l :: 0 <= i < l < |ms| ==> ms[i].offset < ms[l].offset
    requires a < |ms| && b < |ms|
    ensures a < b ==> ms[a].offset < ms[b].offset
    ensures a == b ==> ms[a].offset == ms[b].offset
  {
  }

  /** `sec` names the nearest heading at or before offset `t`: it is null exactly when no
      paragraph starting at or before `t` looks like a heading, and otherwise it is the
      trimmed first line of the last paragraph that does. */
  predicate IsNearestHeading(ps: seq<string>, t: int, sec: Option<string>) {
    && (sec == None <==> forall j :: 0 <= j < |ps| && LooksHeading(FirstLine(ps[j])) ==> ParaOffset(ps, j) > t)
    && (sec.Some? ==>
      exists j ::
        && 0 <= j < |ps| && LooksHeading(FirstLine(ps[j]))
        && sec == Some(FirstLine(ps[j]))
        && ParaOffset(ps, j) <= t
        && (forall l :: j < l < |ps| && LooksHeading(FirstLine(ps[l])) ==> ParaOffset(ps, l) > t))
  }

  /** `currentSection(t, detectSections(ps))` is the nearest heading at or before `t`. */
  lemma NearestHeading(ps: seq<string>, t: int)
    ensures IsNearestHeading(ps, t, CurrentFrom(t, SectionsOf(ps), 0, None))
  {
    NearestMarker(HeadingOf, ps, t);
    forall j | 0 <= j < |ps| {
      HeadingOfFacts(ps[j]);
    }
  }
}
