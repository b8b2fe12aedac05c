/** Stretches of positions: the buffers of the sentence scan and the groups of the merge. */
module Spans {
  /** A stretch `lo..hi` of positions: a buffer of the scan, or a run of sentences. */
  datatype Span = Span(lo: nat, hi: nat)

  predicate SpansWithin(g: seq<Span>, n: nat) {
    forall k :: 0 <= k < |g| ==> g[k].lo <= g[k].hi <= n
  }

  /** Span `k` starts where span `k - 1` ends. */
  predicate Abuts(g: seq<Span>, k: nat)
    requires 0 < k < |g|
  {
    g[k - 1].hi == g[k].lo
  }

  /** Each span starts where the one before it ends. */
  predicate Contiguous(g: seq<Span>) {
    forall k :: 0 < k < |g| ==> Abuts(g, k)
  }

  lemma ContiguousCons(x: Span, g: seq<Span>)
    requires Contiguous(g) && (g == [] || g[0].lo == x.hi)
    ensures Contiguous([x] + g)
  {
    forall k | 0 < k < |[x] + g| ensures Abuts([x] + g, k) {
      if k > 1 {
        assert Abuts(g, k - 1);
      }
    }
  }

  lemma ContiguousTail(g: seq<Span>)
    requires g != [] && Contiguous(g)
    ensures Contiguous(g[1..])
  {
    forall k | 0 < k < |g| - 1 ensures Abuts(g[1..], k) {
      assert Abuts(g, k + 1);
    }
  }

  /** Non-empty spans that each start where the one before ends start at increasing positions. */
  lemma {:induction false} ContiguousIncreasing(g: seq<Span>)
    requires Contiguous(g)
    requires forall k :: 0 <= k < |g| ==> g[k].lo < g[k].hi
    ensures forall k, l :: 0 <= k < l < |g| ==> g[k].lo < g[l].lo
  {
    if g != [] {
      var t := g[1..];
      ContiguousTail(g);
      ContiguousIncreasing(t);
      forall l | 0 < l < |g| ensures g[0].lo < g[l].lo {
        if l > 1 {
          assert t[0] == g[1] && t[l - 1] == g[l];
        }
        assert Abuts(g, 1);
      }
    }
  }
}
