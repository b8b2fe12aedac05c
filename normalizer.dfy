/** Text normalization (`normalize` in ChunkText.kt): line endings unified,
    control characters turned into spaces, each line trimmed with long runs of
    regex whitespace collapsed, the whole text trimmed. The Unicode NFKC step
    that the source applies first is not modelled: the input here is the text
    after NFKC. */
module Normalizer {
  import opened KotlinStd

  // ---------------------------------------------------------------------------
  // Line endings
  // ---------------------------------------------------------------------------

  /** `replace("\r\n", "\n")`, left to right. */
  function ReplaceCrLf(s: string): (r: string)
    ensures |r| <= |s|
    decreases |s|
  {
    if s == [] then []
    else if |s| >= 2 && s[0] == '\r' && s[1] == '\n' then "\n" + ReplaceCrLf(s[2..])
    else [s[0]] + ReplaceCrLf(s[1..])
  }

  /** `replace("\r", "\n")`. */
  function ReplaceCr(s: string): (r: string)
    ensures |r| == |s| && '\r' !in r
    ensures forall i :: 0 <= i < |s| && s[i] != '\r' ==> r[i] == s[i]
    decreases |s|
  {
    if s == [] then [] else [if s[0] == '\r' then '\n' else s[0]] + ReplaceCr(s[1..])
  }

  function UnifyLineEnds(s: string): string {
    ReplaceCr(ReplaceCrLf(s))
  }

  lemma {:induction false} ReplaceCrLfVisible(s: string)
    ensures Visible(ReplaceCrLf(s)) == Visible(s)
    decreases |s|
  {
    if s == [] {
    } else if |s| >= 2 && s[0] == '\r' && s[1] == '\n' {
      ReplaceCrLfVisible(s[2..]);
      assert s == "\r\n" + s[2..];
      FilterAppend(IsVisible, "\r\n", s[2..]);
      FilterAppend(IsVisible, "\n", ReplaceCrLf(s[2..]));
    } else {
      ReplaceCrLfVisible(s[1..]);
      assert s == [s[0]] + s[1..];
      FilterAppend(IsVisible, [s[0]], s[1..]);
      FilterAppend(IsVisible, [s[0]], ReplaceCrLf(s[1..]));
    }
  }

  lemma {:induction false} ReplaceCrVisible(s: string)
    ensures Visible(ReplaceCr(s)) == Visible(s)
    decreases |s|
  {
    if s != [] {
      ReplaceCrVisible(s[1..]);
    }
  }

  /** Unifying line endings leaves no carriage return and keeps every visible character. */
  lemma UnifyLineEndsFacts(s: string)
    ensures '\r' !in UnifyLineEnds(s)
    ensures Visible(UnifyLineEnds(s)) == Visible(s)
  {
    ReplaceCrLfVisible(s);
    ReplaceCrVisible(ReplaceCrLf(s));
  }

  lemma {:induction false} ReplaceCrLfNoCr(s: string)
    requires '\r' !in s
    ensures ReplaceCrLf(s) == s
    decreases |s|
  {
    if s != [] {
      ReplaceCrLfNoCr(s[1..]);
      assert s == [s[0]] + s[1..];
    }
  }

  // ---------------------------------------------------------------------------
  // Control characters (the character loop of `normalize`)
  // ---------------------------------------------------------------------------

  /** What the loop writes for `c`: `c` itself if it is a newline or has code 0x20 or above, else a space. */
  function Decontrol(c: char): (d: char)
    ensures d == '\n' || d as int >= 0x20
    ensures IsVisible(d) <==> IsVisible(c)
  {
    if c == '\n' || c as int >= 0x20 then c else ' '
  }

  /** Only newlines and characters with code 0x20 or above (so no carriage return). */
  predicate Printable(s: string) {
    forall i :: 0 <= i < |s| ==> s[i] == '\n' || s[i] as int >= 0x20
  }

  function ControlsToSpaces(s: string): (r: string)
    ensures |r| == |s| && forall i :: 0 <= i < |s| ==> r[i] == Decontrol(s[i])
    decreases |s|
  {
    if s == [] then [] else [Decontrol(s[0])] + ControlsToSpaces(s[1..])
  }

  /** The `buildString { for (ch in lf) append(...) }` loop. */
  method StripControls(lf: string) returns (r: string)
    ensures r == ControlsToSpaces(lf)
    ensures Printable(r) && '\r' !in r
    ensures Visible(r) == Visible(lf)
  {
    r := [];
    var i := 0;
    while i < |lf|
      invariant 0 <= i <= |lf|
      invariant |r| == i && forall k :: 0 <= k < i ==> r[k] == Decontrol(lf[k])
    {
      var ch := lf[i];
      r := r + [if ch == '\n' || ch as int >= 0x20 then ch else ' '];
      i := i + 1;
    }
    ControlsToSpacesVisible(lf);
  }

  lemma {:induction false} ControlsToSpacesVisible(s: string)
    ensures Visible(ControlsToSpaces(s)) == Visible(s)
    decreases |s|
  {
    if s != [] {
      ControlsToSpacesVisible(s[1..]);
      assert ControlsToSpaces(s)[1..] == ControlsToSpaces(s[1..]);
    }
  }

  lemma ControlsToSpacesOfPrintable(s: string)
    requires Printable(s)
    ensures ControlsToSpaces(s) == s
  {
  }

  // ---------------------------------------------------------------------------
  // Runs of regex whitespace
  // ---------------------------------------------------------------------------

  /** Length of the run of `\s` characters at the start of `s`. */
  function SpaceRun(s: string): (n: nat)
    ensures n <= |s|
    ensures forall i :: 0 <= i < n ==> IsRegexSpace(s[i])
    ensures n < |s| ==> !IsRegexSpace(s[n])
    decreases |s|
  {
    if s != [] && IsRegexSpace(s[0]) then 1 + SpaceRun(s[1..]) else 0
  }

  /** `replace(Regex("\\s{3,}"), " ")`: each maximal run of three or more `\s` characters becomes one space. */
  function CollapseRuns(s: string): string
    decreases |s|
  {
    if s == [] then []
    else if IsRegexSpace(s[0]) then
      var n := SpaceRun(s);
      (if n >= 3 then " " else s[..n]) + CollapseRuns(s[n..])
    else [s[0]] + CollapseRuns(s[1..])
  }

  predicate ThreeSpaces(s: string, i: int)
    requires 0 <= i && i + 2 < |s|
  {
    IsRegexSpace(s[i]) && IsRegexSpace(s[i + 1]) && IsRegexSpace(s[i + 2])
  }

  /** No three `\s` characters in a row. */
  predicate NoLongRuns(s: string) {
    forall i :: 0 <= i && i + 2 < |s| ==> !ThreeSpaces(s, i)
  }

  lemma NoLongRunsSuffix(s: string, k: nat)
    requires NoLongRuns(s) && k <= |s|
    ensures NoLongRuns(s[k..])
  {
    forall i | 0 <= i && i + 2 < |s[k..]|
      ensures !ThreeSpaces(s[k..], i)
    {
      assert !ThreeSpaces(s, k + i);
    }
  }

  lemma NoLongRunsPrepend(p: string, r: string)
    requires NoLongRuns(r)
    requires (|p| == 1 && !IsRegexSpace(p[0])) || (|p| <= 2 && (r == [] || !IsRegexSpace(r[0])))
    ensures NoLongRuns(p + r)
  {
    var s := p + r;
    forall i | 0 <= i && i + 2 < |s|
      ensures !ThreeSpaces(s, i)
    {
      if i >= |p| {
        assert !ThreeSpaces(r, i - |p|);
      }
    }
  }

  /** Collapsing leaves no run of three `\s` characters and keeps a first character that is not `\s`. */
  lemma {:induction false} CollapseRunsNoLongRuns(s: string)
    ensures NoLongRuns(CollapseRuns(s))
    ensures s != [] && !IsRegexSpace(s[0]) ==> CollapseRuns(s) != [] && CollapseRuns(s)[0] == s[0]
    decreases |s|
  {
    if s == [] {
    } else if IsRegexSpace(s[0]) {
      var n := SpaceRun(s);
      var p := if n >= 3 then " " else s[..n];
      CollapseRunsNoLongRuns(s[n..]);
      NoLongRunsPrepend(p, CollapseRuns(s[n..]));
    } else {
      CollapseRunsNoLongRuns(s[1..]);
      NoLongRunsPrepend([s[0]], CollapseRuns(s[1..]));
    }
  }

  lemma {:induction false} CollapseRunsLast(s: string)
    requires s != [] && !IsRegexSpace(s[|s| - 1])
    ensures CollapseRuns(s) != [] && CollapseRuns(s)[|CollapseRuns(s)| - 1] == s[|s| - 1]
    decreases |s|
  {
    if IsRegexSpace(s[0]) {
      var n := SpaceRun(s);
      assert n < |s|;
      CollapseRunsLast(s[n..]);
    } else if |s| > 1 {
      CollapseRunsLast(s[1..]);
    }
  }

  lemma {:induction false} CollapseRunsPrintable(s: string)
    requires Printable(s) && '\n' !in s
    ensures Printable(CollapseRuns(s)) && '\n' !in CollapseRuns(s)
    decreases |s|
  {
    if s == [] {
    } else if IsRegexSpace(s[0]) {
      var n := SpaceRun(s);
      assert s[n..] == s[n..];
      assert forall i :: 0 <= i < |s[n..]| ==> s[n..][i] == s[n + i];
      CollapseRunsPrintable(s[n..]);
      assert forall i :: 0 <= i < |s[..n]| ==> s[..n][i] == s[i];
    } else {
      assert forall i :: 0 <= i < |s[1..]| ==> s[1..][i] == s[1 + i];
      CollapseRunsPrintable(s[1..]);
    }
  }

  lemma {:induction false} CollapseRunsVisible(s: string)
    ensures Visible(CollapseRuns(s)) == Visible(s)
    decreases |s|
  {
    if s == [] {
    } else if IsRegexSpace(s[0]) {
      var n := SpaceRun(s);
      var p := if n >= 3 then " " else s[..n];
      var t := s[n..];
      CollapseRunsVisible(t);
      assert s == s[..n] + t;
      FilterAppend(IsVisible, s[..n], t);
      FilterAppend(IsVisible, p, CollapseRuns(t));
      FilterOfWhitespace(IsVisible, s[..n]);
      FilterOfWhitespace(IsVisible, p);
    } else {
      CollapseRunsVisible(s[1..]);
    }
  }

  /** A text without runs of three `\s` characters is left unchanged. */
  lemma {:induction false} CollapseRunsFixed(s: string)
    requires NoLongRuns(s)
    ensures CollapseRuns(s) == s
    decreases |s|
  {
    if s != [] {
      if IsRegexSpace(s[0]) {
        var n := SpaceRun(s);
        if n >= 3 {
          assert ThreeSpaces(s, 0);
        }
        NoLongRunsSuffix(s, n);
        CollapseRunsFixed(s[n..]);
        assert s == s[..n] + s[n..];
      } else {
        NoLongRunsSuffix(s, 1);
        CollapseRunsFixed(s[1..]);
        assert s == [s[0]] + s[1..];
      }
    }
  }

  // ---------------------------------------------------------------------------
  // Lines
  // ---------------------------------------------------------------------------

  /** `it.trim().replace(Regex("\\s{3,}"), " ")`, applied to each line. */
  function CleanLine(l: string): string {
    CollapseRuns(Trim(l))
  }

  function CleanLines(ls: seq<string>): (r: seq<string>)
    ensures |r| == |ls|
  {
    seq(|ls|, k requires 0 <= k < |ls| => CleanLine(ls[k]))
  }

  /** The shape of every line of normalized text. */
  predicate IsCleanLine(l: string) {
    IsTrimmed(l) && NoLongRuns(l) && Printable(l) && '\n' !in l
  }

  lemma CleanLineFacts(l: string)
    requires Printable(l) && '\n' !in l
    ensures IsCleanLine(CleanLine(l))
    ensures Visible(CleanLine(l)) == Visible(l)
  {
    TrimPrintable(l);
    TrimKeepsOut(l, '\n');
    CollapseTrimmed(Trim(l));
    InkAndVisibleDropWhitespace();
    FilterTrim(IsVisible, l);
  }

  /** Collapsing the runs of a trimmed printable line gives a clean line with the same
      visible characters. */
  lemma CollapseTrimmed(t: string)
    requires IsTrimmed(t) && Printable(t) && '\n' !in t
    ensures IsCleanLine(CollapseRuns(t)) && Visible(CollapseRuns(t)) == Visible(t)
  {
    CollapseRunsNoLongRuns(t);
    CollapseRunsPrintable(t);
    CollapseRunsVisible(t);
    if t != [] {
      CollapseRunsLast(t);
    }
  }

  lemma CleanLineOfClean(l: string)
    requires IsCleanLine(l)
    ensures CleanLine(l) == l
  {
    TrimOfTrimmed(l);
    CollapseRunsFixed(l);
  }

  // ---------------------------------------------------------------------------
  // normalize
  // ---------------------------------------------------------------------------

  /** The cleaned lines of the text, before they are joined and trimmed. */
  function CleanedLines(nfkc: string): seq<string> {
    CleanLines(Lines(ControlsToSpaces(UnifyLineEnds(nfkc))))
  }

  function NormalizedText(nfkc: string): string {
    Trim(Join("\n", CleanedLines(nfkc)))
  }

  /** `normalize(s)`, from the text after its NFKC step. */
  method Normalize(nfkc: string) returns (r: string)
    ensures r == NormalizedText(nfkc)
    ensures Printable(r) && IsTrimmed(r)
    ensures forall k :: 0 <= k < |Lines(r)| ==> IsCleanLine(Lines(r)[k])
    ensures Visible(r) == Visible(nfkc)
  {
    var lf := UnifyLineEnds(nfkc);
    var noCtrl := StripControls(lf);
    r := Trim(Join("\n", CleanLines(Lines(noCtrl))));
    NormalizedTextFacts(nfkc);
  }

  // ----- facts about NormalizedText

  function DropLeadingBlank(ls: seq<string>): (r: seq<string>)
    ensures |r| <= |ls| && r == ls[|ls| - |r|..]
    ensures r == [] || r[0] != []
    decreases |ls|
  {
    if ls != [] && ls[0] == [] then DropLeadingBlank(ls[1..]) else ls
  }

  function DropTrailingBlank(ls: seq<string>): (r: seq<string>)
    ensures |r| <= |ls| && r == ls[..|r|]
    decreases |ls|
  {
    if ls != [] && ls[|ls| - 1] == [] then DropTrailingBlank(ls[..|ls| - 1]) else ls
  }

  lemma {:induction false} TrimStartJoin(ls: seq<string>)
    requires forall k :: 0 <= k < |ls| ==> IsTrimmed(ls[k])
    ensures TrimStart(Join("\n", ls)) == Join("\n", DropLeadingBlank(ls))
    decreases |ls|
  {
    if ls != [] && ls[0] == [] {
      TrimStartJoin(ls[1..]);
      if |ls| > 1 {
        JoinBlankFirst(ls);
        TrimStartNewline(Join("\n", ls[1..]));
      }
    } else if ls != [] {
      JoinFirstChar(ls);
    }
  }

  /** Joining lines whose first is empty puts a newline in front of the rest. */
  lemma JoinBlankFirst(ls: seq<string>)
    requires |ls| > 1 && ls[0] == []
    ensures Join("\n", ls) == "\n" + Join("\n", ls[1..])
  {
  }

  lemma TrimStartNewline(rest: string)
    ensures TrimStart("\n" + rest) == TrimStart(rest)
  {
    var s := "\n" + rest;
    assert s[0] == '\n' && IsWhitespace(s[0]);
    assert s[1..] == rest;
  }

  /** Joined lines whose first is non-empty and trimmed start with a character that is not
      whitespace, so `trimStart` keeps them. */
  lemma JoinFirstChar(ls: seq<string>)
    requires ls != [] && ls[0] != [] && IsTrimmed(ls[0])
    ensures TrimStart(Join("\n", ls)) == Join("\n", ls)
  {
    var j := Join("\n", ls);
    if |ls| > 1 {
      assert j == ls[0] + "\n" + Join("\n", ls[1..]);
    }
    assert j[0] == ls[0][0];
  }

  lemma {:induction false} TrimEndJoin(ls: seq<string>)
    requires forall k :: 0 <= k < |ls| ==> IsTrimmed(ls[k])
    ensures TrimEnd(Join("\n", ls)) == Join("\n", DropTrailingBlank(ls))
    decreases |ls|
  {
    if ls != [] && ls[|ls| - 1] == [] {
      var init := ls[..|ls| - 1];
      TrimEndJoin(init);
      if |ls| > 1 {
        assert ls == init + [[]];
        JoinSnoc("\n", init, []);
        var j := Join("\n", ls);
        assert j == Join("\n", init) + "\n";
        assert j[..|j| - 1] == Join("\n", init);
      }
    } else if ls != [] {
      var init := ls[..|ls| - 1];
      var last := ls[|ls| - 1];
      var j := Join("\n", ls);
      if |ls| > 1 {
        assert ls == init + [last];
        JoinSnoc("\n", init, last);
      }
      assert j[|j| - 1] == last[|last| - 1];
    }
  }

  lemma {:induction false} LinesPrintable(s: string)
    requires Printable(s)
    ensures forall k :: 0 <= k < |Lines(s)| ==> Printable(Lines(s)[k])
    decreases |s|
  {
    if s == [] {
    } else if s[0] == '\n' {
      LinesPrintable(s[1..]);
    } else {
      assert s[0] != '\r';
      LinesPrintable(s[1..]);
    }
  }

  lemma {:induction false} JoinPrintable(ls: seq<string>)
    requires forall k :: 0 <= k < |ls| ==> Printable(ls[k])
    ensures Printable(Join("\n", ls))
    decreases |ls|
  {
    if |ls| > 1 {
      JoinPrintable(ls[1..]);
    }
  }

  lemma {:induction false} JoinVisible(ls: seq<string>, ms: seq<string>)
    requires |ls| == |ms|
    requires forall k :: 0 <= k < |ls| ==> Visible(ls[k]) == Visible(ms[k])
    ensures Visible(Join("\n", ls)) == Visible(Join("\n", ms))
    decreases |ls|
  {
    if |ls| > 1 {
      JoinVisible(ls[1..], ms[1..]);
      FilterAppend(IsVisible, ls[0] + "\n", Join("\n", ls[1..]));
      FilterAppend(IsVisible, ls[0], "\n");
      FilterAppend(IsVisible, ms[0] + "\n", Join("\n", ms[1..]));
      FilterAppend(IsVisible, ms[0], "\n");
    }
  }

  lemma CleanedLinesFacts(nfkc: string)
    ensures forall k :: 0 <= k < |CleanedLines(nfkc)| ==> IsCleanLine(CleanedLines(nfkc)[k])
    ensures Visible(Join("\n", CleanedLines(nfkc))) == Visible(nfkc)
  {
    var u := UnifyLineEnds(nfkc);
    UnifyLineEndsFacts(nfkc);
    var c := ControlsToSpaces(u);
    ControlsToSpacesVisible(u);
    var ls := Lines(c);
    LinesPrintable(c);
    var cl := CleanLines(ls);
    forall k | 0 <= k < |ls| ensures IsCleanLine(cl[k]) && Visible(cl[k]) == Visible(ls[k]) {
      CleanLineFacts(ls[k]);
    }
    JoinVisible(cl, ls);
    JoinLinesOfText(c);
  }

  lemma TrimPrintable(s: string)
    requires Printable(s)
    ensures Printable(Trim(s))
  {
    var r := Trim(s);
    forall i | 0 <= i < |r| ensures r[i] == '\n' || r[i] as int >= 0x20 {
      assert r[i] == s[Lead(s) + i];
    }
  }

  lemma NormalizedTextPrintable(nfkc: string)
    ensures Printable(NormalizedText(nfkc)) && IsTrimmed(NormalizedText(nfkc))
    ensures Visible(NormalizedText(nfkc)) == Visible(nfkc)
  {
    var cl := CleanedLines(nfkc);
    CleanedLinesFacts(nfkc);
    var j := Join("\n", cl);
    JoinPrintable(cl);
    TrimPrintable(j);
    FilterTrim(IsVisible, j);
  }

  lemma TrimJoin(cl: seq<string>) returns (d: seq<string>)
    requires forall k :: 0 <= k < |cl| ==> IsCleanLine(cl[k])
    ensures Trim(Join("\n", cl)) == Join("\n", d)
    ensures forall k :: 0 <= k < |d| ==> IsCleanLine(d[k])
  {
    TrimStartJoin(cl);
    var d1 := DropLeadingBlank(cl);
    SuffixClean(cl, d1);
    TrimEndJoin(d1);
    d := DropTrailingBlank(d1);
    PrefixClean(d1, d);
  }

  lemma SuffixClean(ls: seq<string>, r: seq<string>)
    requires forall k :: 0 <= k < |ls| ==> IsCleanLine(ls[k])
    requires |r| <= |ls| && r == ls[|ls| - |r|..]
    ensures forall k :: 0 <= k < |r| ==> IsCleanLine(r[k])
  {
    assert forall k :: 0 <= k < |r| ==> r[k] == ls[|ls| - |r| + k];
  }

  lemma PrefixClean(ls: seq<string>, r: seq<string>)
    requires forall k :: 0 <= k < |ls| ==> IsCleanLine(ls[k])
    requires |r| <= |ls| && r == ls[..|r|]
    ensures forall k :: 0 <= k < |r| ==> IsCleanLine(r[k])
  {
    assert forall k :: 0 <= k < |r| ==> r[k] == ls[k];
  }

  lemma CleanLineNoCr(l: string)
    requires IsCleanLine(l)
    ensures '\r' !in l
  {
  }

  lemma LinesOfCleanJoin(d: seq<string>)
    requires forall k :: 0 <= k < |d| ==> IsCleanLine(d[k])
    ensures forall k :: 0 <= k < |Lines(Join("\n", d))| ==> IsCleanLine(Lines(Join("\n", d))[k])
  {
    if d == [] {
      assert Join("\n", d) == [];
      assert Lines([]) == [[]];
    } else {
      forall k | 0 <= k < |d| ensures '\n' !in d[k] && '\r' !in d[k] {
        CleanLineNoCr(d[k]);
      }
      LinesOfJoin(d);
    }
  }

  lemma NormalizedTextLines(nfkc: string)
    ensures forall k :: 0 <= k < |Lines(NormalizedText(nfkc))| ==> IsCleanLine(Lines(NormalizedText(nfkc))[k])
  {
    var cl := CleanedLines(nfkc);
    CleanedLinesFacts(nfkc);
    var d := TrimJoin(cl);
    LinesOfCleanJoin(d);
  }

  /** Normalized text has no control character but newlines, no leading or trailing
      whitespace, clean lines, and the visible characters of its input, in order. */
  lemma NormalizedTextFacts(nfkc: string)
    ensures var r := NormalizedText(nfkc);
      && Printable(r) && IsTrimmed(r)
      && (forall k :: 0 <= k < |Lines(r)| ==> IsCleanLine(Lines(r)[k]))
      && Visible(r) == Visible(nfkc)
  {
    NormalizedTextPrintable(nfkc);
    NormalizedTextLines(nfkc);
  }

  /** A text that already has the shape of normalized text is its own normalization. */
  lemma NormalizedFixpoint(r: string)
    requires Printable(r) && IsTrimmed(r)
    requires forall k :: 0 <= k < |Lines(r)| ==> IsCleanLine(Lines(r)[k])
    ensures NormalizedText(r) == r
  {
    assert '\r' !in r by {
      forall i | 0 <= i < |r| ensures r[i] != '\r' { }
    }
    ReplaceCrLfNoCr(r);
    assert ReplaceCr(r) == r;
    ControlsToSpacesOfPrintable(r);
    var ls := Lines(r);
    forall k | 0 <= k < |ls| ensures CleanLines(ls)[k] == ls[k] {
      CleanLineOfClean(ls[k]);
    }
    assert CleanLines(ls) == ls;
    JoinLinesOfText(r);
    TrimOfTrimmed(r);
  }

  /** Normalizing twice is normalizing once (the NFKC step aside). */
  lemma NormalizeIdempotent(nfkc: string)
    ensures NormalizedText(NormalizedText(nfkc)) == NormalizedText(nfkc)
  {
    NormalizedTextFacts(nfkc);
    NormalizedFixpoint(NormalizedText(nfkc));
  }
}
