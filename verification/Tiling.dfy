/** Blocks that tile a memory region: splitting one, joining two, and sums over them. Both heap
    allocators of RT-Thread keep such a tiling. */
module Tiling {
  const LEAST := 24   // no block is smaller than this, header included

  datatype Block = Block(at: nat, used: bool)

  function NextAt(bs: seq<Block>, i: nat, end: nat): nat
    requires i < |bs|
  {
    if i + 1 < |bs| then bs[i + 1].at else end
  }

  function PrevAt(bs: seq<Block>, i: nat): nat
    requires i < |bs|
  {
    if i == 0 then 0 else bs[i - 1].at
  }

  /** The blocks tile [0, end): each starts where the one before it stops, with room for a header. */
  ghost predicate Tiled(bs: seq<Block>, end: nat) {
    && |bs| > 0 && bs[0].at == 0
    && (forall i :: 0 <= i < |bs| ==> bs[i].at + LEAST <= NextAt(bs, i, end))
  }

  /** No two neighbours are both free. */
  ghost predicate Coalesced(bs: seq<Block>) {
    forall i :: 0 <= i < |bs| - 1 ==> bs[i].used || bs[i + 1].used
  }

  /** What a block contributes to a sum over the blocks whose used flag is `used`. */
  function Weight(isUsed: bool, span: int, used: bool, off: nat): int { if isUsed == used then span - off else 0 }

  /** Over the blocks from index `i` on whose flag is `used`: their spans, less `off` each. */
  function Sum(bs: seq<Block>, i: nat, end: nat, used: bool, off: nat): int
    requires i <= |bs|
    decreases |bs| - i
  {
    if i == |bs| then 0
    else Weight(bs[i].used, NextAt(bs, i, end) - bs[i].at, used, off) + Sum(bs, i + 1, end, used, off)
  }

  function IndexOf(bs: seq<Block>, at: nat): (r: nat)
    ensures r <= |bs|
  {
    if bs == [] || bs[0].at == at then 0 else 1 + IndexOf(bs[1..], at)
  }

  function SplitAt(bs: seq<Block>, j: nat, at: nat, used: bool): seq<Block>
    requires j < |bs|
  {
    bs[..j] + [Block(bs[j].at, used), Block(at, false)] + bs[j + 1..]
  }

  function Remove(bs: seq<Block>, j: nat): seq<Block>
    requires j < |bs|
  {
    bs[..j] + bs[j + 1..]
  }

  // ----- positions -----

  lemma {:induction false} Increasing(bs: seq<Block>, end: nat, i: nat, j: nat)
    requires Tiled(bs, end) && i < j < |bs|
    ensures bs[i].at + LEAST <= bs[j].at < end
    decreases j - i
  {
    assert bs[j].at + LEAST <= NextAt(bs, j, end);
    assert bs[i].at + LEAST <= NextAt(bs, i, end);
    if i + 1 < j { Increasing(bs, end, i + 1, j); }
    BelowEnd(bs, end, j);
  }

  lemma {:induction false} BelowEnd(bs: seq<Block>, end: nat, j: nat)
    requires Tiled(bs, end) && j < |bs|
    ensures bs[j].at < end
    decreases |bs| - j
  {
    assert bs[j].at + LEAST <= NextAt(bs, j, end);
    if j + 1 < |bs| { BelowEnd(bs, end, j + 1); }
  }

  lemma NextBelow(bs: seq<Block>, end: nat, k: nat)
    requires Tiled(bs, end) && k < |bs|
    ensures NextAt(bs, k, end) <= end
  {
    hide Tiled;
    if k + 1 < |bs| { BelowEnd(bs, end, k + 1); }
  }

  lemma DistinctAt(bs: seq<Block>, end: nat, i: nat, j: nat)
    requires Tiled(bs, end) && i < |bs| && j < |bs|
    ensures bs[i].at == bs[j].at <==> i == j
  {
    hide Tiled;
    if i < j { Increasing(bs, end, i, j); }
    if j < i { Increasing(bs, end, j, i); }
  }

  /** No block starts inside another. */
  lemma Outside(bs: seq<Block>, end: nat, j: nat, o: nat, at: nat)
    requires Tiled(bs, end) && j < |bs| && o < |bs| && bs[j].at < at < NextAt(bs, j, end)
    ensures bs[o].at != at
  {
    hide Tiled;
    if o < j { Increasing(bs, end, o, j); }
    if o > j + 1 { Increasing(bs, end, j + 1, o); }
  }

  lemma {:induction false} IndexFound(bs: seq<Block>, at: nat)
    ensures IndexOf(bs, at) < |bs| ==> bs[IndexOf(bs, at)].at == at
    ensures forall i :: 0 <= i < IndexOf(bs, at) ==> bs[i].at != at
  {
    if bs != [] && bs[0].at != at {
      IndexFound(bs[1..], at);
      forall i | 0 <= i < IndexOf(bs, at) ensures bs[i].at != at {
        if i > 0 { assert bs[i] == bs[1..][i - 1]; }
      }
    }
  }

  // ----- splitting, marking and joining -----

  lemma {:induction false} SumSuffix(bs: seq<Block>, i: nat, cs: seq<Block>, k: nat, end: nat, used: bool, off: nat)
    requires i <= |bs| && k <= |cs| && bs[i..] == cs[k..]
    ensures Sum(bs, i, end, used, off) == Sum(cs, k, end, used, off)
    decreases |bs| - i
  {
    assert |bs| - i == |bs[i..]| == |cs| - k;
    if i < |bs| {
      assert bs[i] == bs[i..][0] == cs[k];
      assert bs[i + 1..] == bs[i..][1..] == cs[k..][1..] == cs[k + 1..];
      if i + 1 < |bs| { assert bs[i + 1] == bs[i..][1] == cs[k + 1]; }
      SumSuffix(bs, i + 1, cs, k + 1, end, used, off);
    }
  }

  /** Two tilings that agree before `j` differ by what they hold from `j` on. */
  lemma {:induction false} SumPrefix(bs: seq<Block>, cs: seq<Block>, i: nat, j: nat, end: nat, used: bool, off: nat)
    requires i <= j < |bs| && j < |cs| && bs[..j] == cs[..j] && bs[j].at == cs[j].at
    ensures Sum(bs, i, end, used, off) - Sum(bs, j, end, used, off) ==
      Sum(cs, i, end, used, off) - Sum(cs, j, end, used, off)
    decreases j - i
  {
    if i < j {
      assert bs[i] == bs[..j][i] == cs[i];
      if i + 1 < j { assert bs[i + 1] == bs[..j][i + 1] == cs[i + 1]; }
      SumPrefix(bs, cs, i + 1, j, end, used, off);
    }
  }

  lemma SplitTiled(bs: seq<Block>, j: nat, at: nat, used: bool, end: nat)
    requires Tiled(bs, end) && j < |bs|
    requires bs[j].at + LEAST <= at && at + LEAST <= NextAt(bs, j, end)
    ensures Tiled(SplitAt(bs, j, at, used), end)
  {
    var cs := SplitAt(bs, j, at, used);
    forall i | 0 <= i < |cs| ensures cs[i].at + LEAST <= NextAt(cs, i, end) {
      if i < j {
        assert bs[i].at + LEAST <= NextAt(bs, i, end);
        assert NextAt(cs, i, end) == NextAt(bs, i, end);
      } else if i > j + 1 {
        assert cs[i] == bs[i - 1] && bs[i - 1].at + LEAST <= NextAt(bs, i - 1, end);
        assert NextAt(cs, i, end) == NextAt(bs, i - 1, end);
      }
    }
  }

  lemma SplitSum(bs: seq<Block>, j: nat, at: nat, flag: bool, end: nat, used: bool, off: nat)
    requires j < |bs|
    ensures Sum(SplitAt(bs, j, at, flag), 0, end, used, off) == Sum(bs, 0, end, used, off)
      - Weight(bs[j].used, NextAt(bs, j, end) - bs[j].at, used, off)
      + Weight(flag, at - bs[j].at, used, off) + Weight(false, NextAt(bs, j, end) - at, used, off)
  {
    hide Weight;
    var cs := SplitAt(bs, j, at, flag);
    SumPrefix(bs, cs, 0, j, end, used, off);
    assert bs[j + 1..] == cs[j + 2..];
    SumSuffix(bs, j + 1, cs, j + 2, end, used, off);
    assert Sum(cs, j + 1, end, used, off)
        == Weight(false, NextAt(bs, j, end) - at, used, off) + Sum(cs, j + 2, end, used, off);
  }

  lemma MarkTiled(bs: seq<Block>, j: nat, used: bool, end: nat)
    requires Tiled(bs, end) && j < |bs|
    ensures Tiled(bs[j := Block(bs[j].at, used)], end)
  {
    var cs := bs[j := Block(bs[j].at, used)];
    forall i | 0 <= i < |cs| ensures cs[i].at + LEAST <= NextAt(cs, i, end) {
      assert bs[i].at + LEAST <= NextAt(bs, i, end);
    }
  }

  lemma MarkSum(bs: seq<Block>, j: nat, flag: bool, end: nat, used: bool, off: nat)
    requires j < |bs|
    ensures var span := NextAt(bs, j, end) - bs[j].at;
      Sum(bs[j := Block(bs[j].at, flag)], 0, end, used, off) == Sum(bs, 0, end, used, off)
        - Weight(bs[j].used, span, used, off) + Weight(flag, span, used, off)
  {
    hide Weight;
    var cs := bs[j := Block(bs[j].at, flag)];
    SumPrefix(bs, cs, 0, j, end, used, off);
    assert bs[j + 1..] == cs[j + 1..];
    SumSuffix(bs, j + 1, cs, j + 1, end, used, off);
  }

  lemma JoinTiled(bs: seq<Block>, k: nat, end: nat)
    requires Tiled(bs, end) && k + 1 < |bs|
    ensures Tiled(Remove(bs, k + 1), end)
  {
    var cs := Remove(bs, k + 1);
    forall i | 0 <= i < |cs| ensures cs[i].at + LEAST <= NextAt(cs, i, end) {
      if i <= k {
        assert bs[i].at + LEAST <= NextAt(bs, i, end);
        if i == k { assert bs[k + 1].at + LEAST <= NextAt(bs, k + 1, end) == NextAt(cs, k, end); }
      } else {
        assert cs[i] == bs[i + 1] && bs[i + 1].at + LEAST <= NextAt(bs, i + 1, end);
        assert NextAt(cs, i, end) == NextAt(bs, i + 1, end);
      }
    }
  }

  lemma JoinSum(bs: seq<Block>, k: nat, end: nat, used: bool, off: nat)
    requires k + 1 < |bs|
    ensures Sum(Remove(bs, k + 1), 0, end, used, off) == Sum(bs, 0, end, used, off)
      - Weight(bs[k].used, bs[k + 1].at - bs[k].at, used, off)
      - Weight(bs[k + 1].used, NextAt(bs, k + 1, end) - bs[k + 1].at, used, off)
      + Weight(bs[k].used, NextAt(bs, k + 1, end) - bs[k].at, used, off)
  {
    hide Weight;
    var cs := Remove(bs, k + 1);
    SumPrefix(bs, cs, 0, k, end, used, off);
    assert bs[k + 2..] == cs[k + 1..];
    SumSuffix(bs, k + 2, cs, k + 1, end, used, off);
    assert Sum(bs, k, end, used, off) == Weight(bs[k].used, bs[k + 1].at - bs[k].at, used, off)
      + Weight(bs[k + 1].used, NextAt(bs, k + 1, end) - bs[k + 1].at, used, off) + Sum(bs, k + 2, end, used, off);
  }

  // ----- the allocations in force -----

  /** Block [a, n) is in use. */
  ghost predicate Live(bs: seq<Block>, end: nat, a: nat, n: nat) {
    exists i :: 0 <= i < |bs| && LiveAt(bs, end, i, a, n)
  }

  predicate LiveAt(bs: seq<Block>, end: nat, i: nat, a: nat, n: nat)
    requires i < |bs|
  {
    bs[i].used && bs[i].at == a && NextAt(bs, i, end) == n
  }

  lemma SplitLive(bs: seq<Block>, end: nat, j: nat, at: nat, a: nat, n: nat)
    requires Tiled(bs, end) && j < |bs|
    ensures Live(SplitAt(bs, j, at, true), end, a, n) <==>
      (a == bs[j].at && n == at) || (a != bs[j].at && Live(bs, end, a, n))
  {
    hide Tiled;
    var cs := SplitAt(bs, j, at, true);
    assert LiveAt(cs, end, j, bs[j].at, at);
    if Live(bs, end, a, n) {
      var i :| 0 <= i < |bs| && LiveAt(bs, end, i, a, n);
      if i < j { assert LiveAt(cs, end, i, a, n); }
      if i > j { assert LiveAt(cs, end, i + 1, a, n); }
    }
    if Live(cs, end, a, n) {
      var i :| 0 <= i < |cs| && LiveAt(cs, end, i, a, n);
      if i < j { assert LiveAt(bs, end, i, a, n); DistinctAt(bs, end, i, j); }
      if i > j + 1 { assert LiveAt(bs, end, i - 1, a, n); DistinctAt(bs, end, i - 1, j); }
    }
  }

  lemma MarkLive(bs: seq<Block>, end: nat, j: nat, used: bool, a: nat, n: nat)
    requires Tiled(bs, end) && j < |bs|
    ensures Live(bs[j := Block(bs[j].at, used)], end, a, n) <==>
      (used && a == bs[j].at && n == NextAt(bs, j, end)) || (a != bs[j].at && Live(bs, end, a, n))
  {
    hide Tiled;
    var cs := bs[j := Block(bs[j].at, used)];
    if used { assert LiveAt(cs, end, j, bs[j].at, NextAt(bs, j, end)); }
    if Live(bs, end, a, n) {
      var i :| 0 <= i < |bs| && LiveAt(bs, end, i, a, n);
      if i != j { assert LiveAt(cs, end, i, a, n); }
    }
    if Live(cs, end, a, n) {
      var i :| 0 <= i < |cs| && LiveAt(cs, end, i, a, n);
      DistinctAt(bs, end, i, j);
      if i != j { assert LiveAt(bs, end, i, a, n); }
    }
  }

  lemma JoinLive(bs: seq<Block>, end: nat, k: nat, a: nat, n: nat)
    requires k + 1 < |bs| && !bs[k].used && !bs[k + 1].used
    ensures Live(Remove(bs, k + 1), end, a, n) <==> Live(bs, end, a, n)
  {
    var cs := Remove(bs, k + 1);
    if Live(bs, end, a, n) {
      var i :| 0 <= i < |bs| && LiveAt(bs, end, i, a, n);
      if i < k { assert LiveAt(cs, end, i, a, n); } else { assert LiveAt(cs, end, i - 1, a, n); }
    }
    if Live(cs, end, a, n) {
      var i :| 0 <= i < |cs| && LiveAt(cs, end, i, a, n);
      if i < k { assert LiveAt(bs, end, i, a, n); } else { assert LiveAt(bs, end, i + 1, a, n); }
    }
  }

  lemma NotLive(bs: seq<Block>, end: nat, j: nat, n: nat)
    requires Tiled(bs, end) && j < |bs| && !bs[j].used
    ensures !Live(bs, end, bs[j].at, n)
  {
    hide Tiled;
    if Live(bs, end, bs[j].at, n) {
      var i :| 0 <= i < |bs| && LiveAt(bs, end, i, bs[j].at, n);
      DistinctAt(bs, end, i, j);
    }
  }

  /** Absorbing block k + 1 ends its allocation, if it was one, and only touches block k besides. */
  lemma AbsorbLive(bs: seq<Block>, end: nat, k: nat, a: nat, n: nat)
    requires Tiled(bs, end) && k + 1 < |bs| && (a == bs[k].at ==> !bs[k].used)
    ensures Live(Remove(bs, k + 1), end, a, n) <==> a != bs[k + 1].at && Live(bs, end, a, n)
  {
    hide Tiled;
    var cs := Remove(bs, k + 1);
    if Live(bs, end, a, n) {
      var i :| 0 <= i < |bs| && LiveAt(bs, end, i, a, n);
      DistinctAt(bs, end, i, k);
      if i < k { assert LiveAt(cs, end, i, a, n); }
      if i > k + 1 { assert LiveAt(cs, end, i - 1, a, n); }
    }
    if Live(cs, end, a, n) {
      var i :| 0 <= i < |cs| && LiveAt(cs, end, i, a, n);
      DistinctAt(bs, end, if i <= k then i else i + 1, k + 1);
      if i < k { assert LiveAt(bs, end, i, a, n); }
      if i > k { assert LiveAt(bs, end, i + 1, a, n); }
    }
  }
}
