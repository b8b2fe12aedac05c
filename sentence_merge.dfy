/** The second half of `splitSentencesWithOffsets`: neighbouring sentences are merged
    into units while a unit plus a space plus the next sentence fits in 60 characters. */
module SentenceMerge {
  import opened KotlinStd
  import opened Spans

  // ---------------------------------------------------------------------------
  // Merging short sentences
  // ---------------------------------------------------------------------------

  /** A merged unit never grows past this many characters by merging. */
  const MergeLimit := 60

  /** The end of the unit that has reached length `len` with sentence `j` next:
      sentences are added while the unit plus a space plus the sentence fits the limit. */
  function GroupEnd(out: seq<string>, len: int, j: nat): (hi: nat)
    requires j <= |out|
    ensures j <= hi <= |out|
    decreases |out| - j
  {
    if j < |out| && len + 1 + |out[j]| <= MergeLimit then GroupEnd(out, len + 1 + |out[j]|, j + 1) else j
  }

  /** The greedy grouping of `out[lo..]` into units. */
  function GroupsFrom(out: seq<string>, lo: nat): (g: seq<Span>)
    requires lo <= |out|
    ensures g == [] <==> lo == |out|
    ensures g != [] ==> g[0].lo == lo && g[|g| - 1].hi == |out|
    ensures forall k :: 0 <= k < |g| ==> lo <= g[k].lo < g[k].hi <= |out|
    ensures Contiguous(g)
    decreases |out| - lo
  {
    if lo == |out| then []
    else
      var hi := GroupEnd(out, |out[lo]|, lo + 1);
      var rest := GroupsFrom(out, hi);
      ContiguousCons(Span(lo, hi), rest);
      [Span(lo, hi)] + rest
  }

  function Groups(out: seq<string>): seq<Span> {
    GroupsFrom(out, 0)
  }

  /** The text of each unit: its sentences joined with a space. */
  function UnitsOf(out: seq<string>, g: seq<Span>): (u: seq<string>)
    requires SpansWithin(g, |out|)
    ensures |u| == |g|
  {
    seq(|g|, k requires 0 <= k < |g| => Join(" ", out[g[k].lo..g[k].hi]))
  }

  /** The offset of each unit: the offset of its first sentence. */
  function StartsOf(ofs: seq<int>, g: seq<Span>): (o: seq<int>)
    requires forall k :: 0 <= k < |g| ==> g[k].lo < |ofs|
    ensures |o| == |g|
  {
    seq(|g|, k requires 0 <= k < |g| => ofs[g[k].lo])
  }

  function Units(out: seq<string>): seq<string> {
    UnitsOf(out, Groups(out))
  }

  function UnitStarts(out: seq<string>, ofs: seq<int>): seq<int>
    requires |ofs| == |out|
  {
    StartsOf(ofs, Groups(out))
  }

  lemma JoinLonger(xs: seq<string>)
    requires xs != []
    ensures |Join(" ", xs)| >= |xs[0]|
  {
  }

  lemma JoinStep(out: seq<string>, lo: nat, j: nat)
    requires lo < j < |out|
    ensures Join(" ", out[lo..j + 1]) == Join(" ", out[lo..j]) + " " + out[j]
  {
    assert out[lo..j + 1] == out[lo..j] + [out[j]];
    JoinSnoc(" ", out[lo..j], out[j]);
  }

  /** The unit being built, `out[lo..j]`, takes in sentence `j`. */
  lemma UnitGrows(out: seq<string>, lo: nat, j: nat, acc: string)
    requires lo < j < |out| && acc == Join(" ", out[lo..j])
    requires |acc| + 1 + |out[j]| <= MergeLimit
    ensures acc + " " + out[j] == Join(" ", out[lo..j + 1])
    ensures GroupEnd(out, |acc|, j) == GroupEnd(out, |acc + " " + out[j]|, j + 1)
  {
    JoinStep(out, lo, j);
  }

  /** The unit being built, `out[lo..j]`, is complete: sentence `j` does not fit. */
  lemma UnitEnds(out: seq<string>, lo: nat, j: nat, acc: string)
    requires lo < j < |out| && acc == Join(" ", out[lo..j])
    requires |acc| + 1 + |out[j]| > MergeLimit
    requires GroupEnd(out, |out[lo]|, lo + 1) == GroupEnd(out, |acc|, j)
    ensures GroupsFrom(out, lo) == [Span(lo, j)] + GroupsFrom(out, j)
  {
  }

  /** A unit started at sentence `j`. */
  lemma UnitStarts1(out: seq<string>, j: nat)
    requires j < |out|
    ensures Join(" ", out[j..j + 1]) == out[j]
  {
    assert out[j..j + 1] == [out[j]];
  }

  /** The texts the merge loop still emits once it has reached sentence `idx` holding
      the unit `acc`. */
  function MergeFold(out: seq<string>, idx: nat, acc: string): seq<string>
    requires idx <= |out|
    decreases |out| - idx
  {
    if idx == |out| then (if acc == [] then [] else [acc])
    else if acc == [] then MergeFold(out, idx + 1, out[idx])
    else if |acc| + 1 + |out[idx]| <= MergeLimit then MergeFold(out, idx + 1, acc + " " + out[idx])
    else [acc] + MergeFold(out, idx + 1, out[idx])
  }

  /** The offsets the merge loop still emits, `accStart` being the offset of `acc`. */
  function StartFold(out: seq<string>, ofs: seq<int>, idx: nat, acc: string, accStart: int): seq<int>
    requires idx <= |out| == |ofs|
    decreases |out| - idx
  {
    if idx == |out| then (if acc == [] then [] else [accStart])
    else if acc == [] then StartFold(out, ofs, idx + 1, out[idx], accStart)
    else if |acc| + 1 + |out[idx]| <= MergeLimit then StartFold(out, ofs, idx + 1, acc + " " + out[idx], accStart)
    else [accStart] + StartFold(out, ofs, idx + 1, out[idx], ofs[idx])
  }

  /** From any point of the loop, the rest of the fold emits the texts of the groups that
      start with the unit being built. */
  lemma {:induction false} FoldIsGroups(out: seq<string>, g0: nat, idx: nat, acc: string)
    requires g0 < idx <= |out|
    requires forall k :: 0 <= k < |out| ==> out[k] != []
    requires acc == Join(" ", out[g0..idx])
    requires GroupEnd(out, |out[g0]|, g0 + 1) == GroupEnd(out, |acc|, idx)
    ensures SpansWithin(GroupsFrom(out, g0), |out|)
    ensures MergeFold(out, idx, acc) == UnitsOf(out, GroupsFrom(out, g0))
    decreases |out| - idx
  {
    JoinLonger(out[g0..idx]);
    if idx == |out| {
      GroupLast(out, g0);
      UnitsOfCons(out, Span(g0, |out|), []);
    } else if |acc| + 1 + |out[idx]| <= MergeLimit {
      UnitGrows(out, g0, idx, acc);
      FoldIsGroups(out, g0, idx + 1, acc + " " + out[idx]);
    } else {
      UnitStarts1(out, idx);
      FoldIsGroups(out, idx, idx + 1, out[idx]);
      FoldCut(out, g0, idx, acc);
    }
  }

  /** Sentence `idx` does not fit: the unit being built is emitted as the first group. */
  lemma FoldCut(out: seq<string>, g0: nat, idx: nat, acc: string)
    requires g0 < idx < |out| && acc != [] && acc == Join(" ", out[g0..idx])
    requires |acc| + 1 + |out[idx]| > MergeLimit
    requires GroupEnd(out, |out[g0]|, g0 + 1) == GroupEnd(out, |acc|, idx)
    requires MergeFold(out, idx + 1, out[idx]) == UnitsOf(out, GroupsFrom(out, idx))
    ensures MergeFold(out, idx, acc) == UnitsOf(out, GroupsFrom(out, g0))
  {
    MergeFoldCut(out, idx, acc);
    UnitsCut(out, g0, idx, acc);
  }

  lemma MergeFoldCut(out: seq<string>, idx: nat, acc: string)
    requires idx < |out| && acc != [] && |acc| + 1 + |out[idx]| > MergeLimit
    ensures MergeFold(out, idx, acc) == [acc] + MergeFold(out, idx + 1, out[idx])
  {
  }

  lemma UnitsCut(out: seq<string>, g0: nat, idx: nat, acc: string)
    requires g0 < idx < |out| && acc == Join(" ", out[g0..idx])
    requires |acc| + 1 + |out[idx]| > MergeLimit
    requires GroupEnd(out, |out[g0]|, g0 + 1) == GroupEnd(out, |acc|, idx)
    ensures UnitsOf(out, GroupsFrom(out, g0)) == [acc] + UnitsOf(out, GroupsFrom(out, idx))
  {
    UnitEnds(out, g0, idx, acc);
    UnitsOfCons(out, Span(g0, idx), GroupsFrom(out, idx));
  }

  /** The same for the offsets: each emitted offset is that of the group's first sentence. */
  lemma {:induction false} FoldStartsGroups(out: seq<string>, ofs: seq<int>, g0: nat, idx: nat, acc: string)
    requires g0 < idx <= |out| == |ofs|
    requires forall k :: 0 <= k < |out| ==> out[k] != []
    requires acc == Join(" ", out[g0..idx])
    requires GroupEnd(out, |out[g0]|, g0 + 1) == GroupEnd(out, |acc|, idx)
    ensures StartFold(out, ofs, idx, acc, ofs[g0]) == StartsOf(ofs, GroupsFrom(out, g0))
    decreases |out| - idx
  {
    JoinLonger(out[g0..idx]);
    if idx == |out| {
      GroupLast(out, g0);
      StartsOfCons(ofs, Span(g0, |out|), []);
    } else if |acc| + 1 + |out[idx]| <= MergeLimit {
      UnitGrows(out, g0, idx, acc);
      FoldStartsGroups(out, ofs, g0, idx + 1, acc + " " + out[idx]);
    } else {
      UnitStarts1(out, idx);
      FoldStartsGroups(out, ofs, idx, idx + 1, out[idx]);
      UnitEnds(out, g0, idx, acc);
      StartsOfCons(ofs, Span(g0, idx), GroupsFrom(out, idx));
    }
  }

  /** A unit that reaches the end of the text is the last group. */
  lemma GroupLast(out: seq<string>, g0: nat)
    requires g0 < |out| && GroupEnd(out, |out[g0]|, g0 + 1) == |out|
    ensures GroupsFrom(out, g0) == [Span(g0, |out|)] + []
  {
  }

  lemma StartsOfCons(ofs: seq<int>, x: Span, g: seq<Span>)
    requires x.lo < |ofs| && forall k :: 0 <= k < |g| ==> g[k].lo < |ofs|
    ensures forall k :: 0 <= k < |[x] + g| ==> ([x] + g)[k].lo < |ofs|
    ensures StartsOf(ofs, [x] + g) == [ofs[x.lo]] + StartsOf(ofs, g)
  {
    var a, b := StartsOf(ofs, [x] + g), [ofs[x.lo]] + StartsOf(ofs, g);
    forall k | 0 < k < |a| ensures a[k] == b[k] {
      assert ([x] + g)[k] == g[k - 1];
    }
  }

  /** The whole fold is the greedy grouping. */
  lemma FoldIsUnits(out: seq<string>)
    requires forall k :: 0 <= k < |out| ==> out[k] != []
    ensures MergeFold(out, 0, []) == Units(out)
  {
    if out != [] {
      UnitStarts1(out, 0);
      FoldIsGroups(out, 0, 1, out[0]);
    }
  }

  lemma FoldIsUnitStarts(out: seq<string>, ofs: seq<int>)
    requires |out| == |ofs|
    requires forall k :: 0 <= k < |out| ==> out[k] != []
    ensures StartFold(out, ofs, 0, [], if |ofs| > 0 then ofs[0] else 0) == UnitStarts(out, ofs)
  {
    if out != [] {
      UnitStarts1(out, 0);
      FoldStartsGroups(out, ofs, 0, 1, out[0]);
    }
  }

  /** The merge loop of `splitSentencesWithOffsets`, on the scanned sentences. */
  method MergeShortSentences(out: seq<string>, ofs: seq<int>) returns (merged: seq<string>, mOfs: seq<int>)
    requires |ofs| == |out|
    requires forall k :: 0 <= k < |out| ==> out[k] != []
    ensures merged == Units(out) && mOfs == UnitStarts(out, ofs)
  {
    merged, mOfs := [], [];
    var acc: string := [];
    var accStart := if |ofs| > 0 then ofs[0] else 0;
    ghost var all, allStarts := MergeFold(out, 0, acc), StartFold(out, ofs, 0, acc, accStart);
    FoldIsUnits(out);
    FoldIsUnitStarts(out, ofs);
    for idx := 0 to |out|
      invariant merged + MergeFold(out, idx, acc) == all
      invariant mOfs + StartFold(out, ofs, idx, acc, accStart) == allStarts
    {
      var cur := out[idx];
      FoldStep(out, ofs, idx, acc, accStart);
      if acc == [] {
        acc := cur;
      } else if |acc| + 1 + |cur| <= MergeLimit {
        acc := acc + " " + cur;
      } else {
        AppendAssoc(merged, [acc], MergeFold(out, idx + 1, cur));
        AppendAssoc(mOfs, [accStart], StartFold(out, ofs, idx + 1, cur, ofs[idx]));
        merged := merged + [acc];
        mOfs := mOfs + [accStart];
        acc := cur;
        accStart := ofs[idx];
      }
    }
    if acc != [] {
      merged := merged + [acc];
      mOfs := mOfs + [accStart];
    }
  }

  /** One turn of the merge loop, on the two folds. */
  lemma FoldStep(out: seq<string>, ofs: seq<int>, idx: nat, acc: string, accStart: int)
    requires idx < |out| == |ofs|
    ensures acc == [] ==>
      && MergeFold(out, idx, acc) == MergeFold(out, idx + 1, out[idx])
      && StartFold(out, ofs, idx, acc, accStart) == StartFold(out, ofs, idx + 1, out[idx], accStart)
    ensures acc != [] && |acc| + 1 + |out[idx]| <= MergeLimit ==>
      && MergeFold(out, idx, acc) == MergeFold(out, idx + 1, acc + " " + out[idx])
      && StartFold(out, ofs, idx, acc, accStart) == StartFold(out, ofs, idx + 1, acc + " " + out[idx], accStart)
    ensures acc != [] && |acc| + 1 + |out[idx]| > MergeLimit ==>
      && MergeFold(out, idx, acc) == [acc] + MergeFold(out, idx + 1, out[idx])
      && StartFold(out, ofs, idx, acc, accStart) == [accStart] + StartFold(out, ofs, idx + 1, out[idx], ofs[idx])
  {
  }

  // ---------------------------------------------------------------------------
  // What the merge promises
  // ---------------------------------------------------------------------------

  lemma {:induction false} GroupEndFacts(out: seq<string>, lo: nat, j: nat, len: int)
    requires lo < j <= |out|
    requires len == |Join(" ", out[lo..j])|
    requires j == lo + 1 || len <= MergeLimit
    ensures var hi := GroupEnd(out, len, j);
      && (hi == lo + 1 || |Join(" ", out[lo..hi])| <= MergeLimit)
      && (hi < |out| ==> |Join(" ", out[lo..hi])| + 1 + |out[hi]| > MergeLimit)
    decreases |out| - j
  {
    if j < |out| && len + 1 + |out[j]| <= MergeLimit {
      JoinStep(out, lo, j);
      GroupEndFacts(out, lo, j + 1, len + 1 + |out[j]|);
    }
  }

  /** A unit built from two or more sentences is at most 60 characters long, and a unit
      stops growing only when the next sentence would take it past 60. */
  lemma GroupBounds(out: seq<string>)
    ensures forall k :: 0 <= k < |Groups(out)| && Groups(out)[k].hi - Groups(out)[k].lo >= 2 ==>
      |Units(out)[k]| <= MergeLimit
    ensures forall k :: 0 <= k < |Groups(out)| && Groups(out)[k].hi < |out| ==>
      |Units(out)[k]| + 1 + |out[Groups(out)[k].hi]| > MergeLimit
  {
    var g := Groups(out);
    forall k | 0 <= k < |g|
      ensures g[k].hi - g[k].lo >= 2 ==> |Units(out)[k]| <= MergeLimit
      ensures g[k].hi < |out| ==> |Units(out)[k]| + 1 + |out[g[k].hi]| > MergeLimit
    {
      GroupIsGroupEnd(out, 0, k);
      var lo := g[k].lo;
      assert out[lo..lo + 1] == [out[lo]];
      GroupEndFacts(out, lo, lo + 1, |out[lo]|);
    }
  }

  lemma {:induction false} GroupIsGroupEnd(out: seq<string>, lo: nat, k: nat)
    requires lo <= |out| && k < |GroupsFrom(out, lo)|
    ensures GroupsFrom(out, lo)[k].hi == GroupEnd(out, |out[GroupsFrom(out, lo)[k].lo]|, GroupsFrom(out, lo)[k].lo + 1)
    decreases |out| - lo
  {
    if k > 0 {
      var hi := GroupEnd(out, |out[lo]|, lo + 1);
      GroupIsGroupEnd(out, hi, k - 1);
      assert GroupsFrom(out, lo)[k] == GroupsFrom(out, hi)[k - 1];
    }
  }

  lemma UnitsOfCons(out: seq<string>, x: Span, g: seq<Span>)
    requires x.lo <= x.hi <= |out| && SpansWithin(g, |out|)
    ensures SpansWithin([x] + g, |out|)
    ensures UnitsOf(out, [x] + g) == [Join(" ", out[x.lo..x.hi])] + UnitsOf(out, g)
  {
    var a, b := UnitsOf(out, [x] + g), [Join(" ", out[x.lo..x.hi])] + UnitsOf(out, g);
    forall k | 0 < k < |a| ensures a[k] == b[k] {
      assert ([x] + g)[k] == g[k - 1];
    }
  }

  lemma GroupsFromCons(out: seq<string>, lo: nat)
    requires lo < |out|
    ensures GroupsFrom(out, lo) == [GroupsFrom(out, lo)[0]] + GroupsFrom(out, GroupsFrom(out, lo)[0].hi)
  {
  }

  lemma {:induction false} UnitsFromJoin(out: seq<string>, lo: nat)
    requires lo < |out|
    ensures Join(" ", UnitsOf(out, GroupsFrom(out, lo))) == Join(" ", out[lo..])
    decreases |out| - lo
  {
    var x := GroupsFrom(out, lo)[0];
    var g' := GroupsFrom(out, x.hi);
    GroupsFromCons(out, lo);
    UnitsOfCons(out, x, g');
    if x.hi == |out| {
      assert out[lo..x.hi] == out[lo..];
    } else {
      UnitsFromJoin(out, x.hi);
      JoinCut(out, lo, x.hi, UnitsOf(out, g'));
    }
  }

  /** A unit `out[lo..hi]` in front of units that join to `out[hi..]` joins to `out[lo..]`. */
  lemma JoinCut(out: seq<string>, lo: nat, hi: nat, rest: seq<string>)
    requires lo < hi < |out| && rest != []
    requires Join(" ", rest) == Join(" ", out[hi..])
    ensures Join(" ", [Join(" ", out[lo..hi])] + rest) == Join(" ", out[lo..])
  {
    JoinAppend(" ", [Join(" ", out[lo..hi])], rest);
    assert out[lo..] == out[lo..hi] + out[hi..];
    JoinAppend(" ", out[lo..hi], out[hi..]);
  }

  /** A single sentence is a single unit, at its own offset. */
  lemma MergeSingle(t: string, o: int)
    ensures Units([t]) == [t] && UnitStarts([t], [o]) == [o]
  {
    UnitStarts1([t], 0);
    assert [t][0..1] == [t];
    assert Groups([t]) == [Span(0, 1)];
  }

  /** Merging loses nothing: the units joined with a space are the sentences joined with a space. */
  lemma MergeKeepsContent(out: seq<string>)
    ensures Join(" ", Units(out)) == Join(" ", out)
  {
    if out != [] {
      UnitsFromJoin(out, 0);
      assert out[0..] == out;
    }
  }

  /** Each unit's offset is its first sentence's, so increasing offsets stay increasing. */
  lemma GroupsOrdered(out: seq<string>, lo: nat)
    requires lo <= |out|
    ensures forall k, l :: 0 <= k < l < |GroupsFrom(out, lo)| ==> GroupsFrom(out, lo)[k].lo < GroupsFrom(out, lo)[l].lo
  {
    ContiguousIncreasing(GroupsFrom(out, lo));
  }

  lemma MergeKeepsOrder(out: seq<string>, ofs: seq<int>)
    requires |ofs| == |out|
    requires forall k, l :: 0 <= k < l < |ofs| ==> ofs[k] < ofs[l]
    ensures |UnitStarts(out, ofs)| == |Units(out)|
    ensures forall k, l :: 0 <= k < l < |UnitStarts(out, ofs)| ==> UnitStarts(out, ofs)[k] < UnitStarts(out, ofs)[l]
  {
    GroupsOrdered(out, 0);
  }
}
