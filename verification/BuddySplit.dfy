/**
 * Splitting a range of page frames into buddy blocks (nobootmem.c): naturally aligned blocks of
 * 2^order pages, order at most MAX_ORDER - 1.
 */
module BuddySplit {
  import opened Common

  const MAX_ORDER: nat := 11

  /** One __free_pages_bootmem call: 2^order pages from `pfn`. */
  datatype Block = Block(pfn: nat, order: nat)

  function Pow2(n: nat): (r: nat)
    ensures r > 0
  {
    if n == 0 then 1 else 2 * Pow2(n - 1)
  }

  /** __ffs: the number of trailing zero bits. */
  function Ffs(x: nat): nat
    requires x > 0
  {
    if x % 2 == 1 then 0 else 1 + Ffs(x / 2)
  }

  predicate Natural(b: Block) { b.order < MAX_ORDER && b.pfn % Pow2(b.order) == 0 }

  /** `bs` covers [start, end) from left to right with natural blocks. */
  predicate Tiling(bs: seq<Block>, start: nat, end: nat) {
    if bs == [] then start == end
    else bs[0].pfn == start && Natural(bs[0]) && Tiling(bs[1..], start + Pow2(bs[0].order), end)
  }

  function PageCount(bs: seq<Block>): nat {
    if bs == [] then 0 else Pow2(bs[0].order) + PageCount(bs[1..])
  }

  /** How many blocks contain page `p`. */
  function Cover(bs: seq<Block>, p: nat): nat {
    if bs == [] then 0
    else (if bs[0].pfn <= p < bs[0].pfn + Pow2(bs[0].order) then 1 else 0) + Cover(bs[1..], p)
  }

  lemma TilingIsExact(bs: seq<Block>, start: nat, end: nat, p: nat)
    requires Tiling(bs, start, end)
    ensures start <= end && PageCount(bs) == end - start
    ensures Cover(bs, p) == if start <= p < end then 1 else 0
  {
    if bs != [] {
      TilingIsExact(bs[1..], start + Pow2(bs[0].order), end, p);
    }
  }

  lemma Pow2Divides(i: nat, j: nat)
    requires i <= j
    ensures Pow2(j) % Pow2(i) == 0 && Pow2(i) <= Pow2(j)
  {
    if i == j {
      MultipleOf(1, Pow2(i));
    } else {
      Pow2Divides(i, j - 1);
      MultipleSum(Pow2(j - 1), Pow2(j - 1), Pow2(i));
    }
  }

  /** A multiple of 2^j is a multiple of 2^i for i <= j. */
  lemma CoarserAligned(x: nat, i: nat, j: nat)
    requires i <= j && x % Pow2(j) == 0
    ensures x % Pow2(i) == 0
  {
    Pow2Divides(i, j);
    var a, b := Pow2(i), Pow2(j);
    var q, r := x / b, b / a;
    assert x == q * b && b == r * a;
    assert x == (q * r) * a by { MulAssoc(q, r, a); }
    MultipleOf(q * r, a);
  }

  lemma MulAssoc(x: int, y: int, z: int)
    ensures x * (y * z) == (x * y) * z
  {
  }

  /** 2^k divides x exactly for k <= Ffs(x). */
  lemma FfsExact(x: nat, k: nat)
    requires x > 0
    ensures x % Pow2(k) == 0 <==> k <= Ffs(x)
  {
    if k == 0 {
      MultipleOf(x, 1);
    } else if x % 2 == 1 {
      OddNotMultiple(x, Pow2(k - 1));
    } else {
      FfsExact(x / 2, k - 1);
      Halve(x / 2, Pow2(k - 1));
    }
  }

  lemma OddNotMultiple(x: nat, h: nat)
    requires x % 2 == 1 && h > 0
    ensures x % (2 * h) != 0
  {
    var q := x / (2 * h);
    assert x % (2 * h) == x - q * (2 * h);
    assert q * (2 * h) == 2 * (q * h);
  }

  lemma Halve(y: nat, h: nat)
    requires h > 0
    ensures (2 * y) % (2 * h) == 0 <==> y % h == 0
  {
    if (2 * y) % (2 * h) == 0 {
      var q := (2 * y) / (2 * h);
      assert 2 * y == q * (2 * h) == 2 * (q * h);
      MultipleOf(q, h);
    }
    if y % h == 0 {
      var q := y / h;
      assert 2 * y == 2 * (q * h) == q * (2 * h);
      MultipleOf(q, 2 * h);
    }
  }

  /** The largest order not above `o` whose block fits before `end`. */
  function FitOrder(start: nat, end: nat, o: nat): (g: nat)
    requires start < end
    ensures g <= o && start + Pow2(g) <= end
    ensures forall k :: g < k <= o ==> start + Pow2(k) > end
  {
    if start + Pow2(o) <= end then o else FitOrder(start, end, o - 1)
  }

  function GreedyOrder(start: nat, end: nat): nat
    requires 0 < start < end
  {
    FitOrder(start, end, Min(MAX_ORDER - 1, Ffs(start)))
  }

  function Greedy(start: nat, end: nat): seq<Block>
    requires 0 < start
    decreases end - start
  {
    if start >= end then []
    else [Block(start, GreedyOrder(start, end))] + Greedy(start + Pow2(GreedyOrder(start, end)), end)
  }

  /** No natural block that starts at `start` and ends by `end` is larger than the greedy one. */
  lemma GreedyLargest(start: nat, end: nat, b: Block)
    requires 0 < start < end
    ensures Natural(Block(start, GreedyOrder(start, end)))
    ensures Natural(b) && b.pfn == start && start + Pow2(b.order) <= end ==> b.order <= GreedyOrder(start, end)
  {
    FfsExact(start, GreedyOrder(start, end));
    FfsExact(start, b.order);
  }

  /** Any tiling has a block boundary at `t`, the end of a block of order g where no larger block starts. */
  lemma SplitAt(cs: seq<Block>, s: nat, t: nat, e: nat, g: nat) returns (k: nat)
    requires Tiling(cs, s, e) && s <= t <= e && t % Pow2(g) == 0 && t - Pow2(g) <= s
    requires s == t - Pow2(g) && cs != [] ==> cs[0].order <= g
    ensures k <= |cs| && Tiling(cs[k..], t, e) && (s < t ==> k > 0)
  {
    if s == t {
      k := 0;
    } else {
      var o := cs[0].order;
      MultipleOf(1, Pow2(g));
      MultipleSum(t, Pow2(g), Pow2(g));
      if o > g {
        CoarserAligned(s, g, o);
        MultiplesApart(t - Pow2(g), s, Pow2(g));
        MultiplesApart(s, t, Pow2(g));
      }
      assert o <= g;
      CoarserAligned(t, o, g);
      MultiplesApart(s, t, Pow2(o));
      var m := SplitAt(cs[1..], s + Pow2(o), t, e, g);
      k := m + 1;
      assert cs[k..] == cs[1..][m..];
    }
  }

  /** The greedy split tiles the range and no tiling by natural blocks uses fewer. */
  lemma {:induction false} GreedyOptimal(start: nat, end: nat, cs: seq<Block>)
    requires 0 < start <= end
    ensures Tiling(Greedy(start, end), start, end)
    ensures Tiling(cs, start, end) ==> |Greedy(start, end)| <= |cs|
    decreases end - start
  {
    if start < end {
      var g := GreedyOrder(start, end);
      var t := start + Pow2(g);
      var gs := Greedy(start, end);
      assert gs[1..] == Greedy(t, end);
      GreedyLargest(start, end, Block(start, g));
      if Tiling(cs, start, end) {
        TilingIsExact(cs, start, end, start);
        TilingIsExact(cs[1..], start + Pow2(cs[0].order), end, start);
        GreedyLargest(start, end, cs[0]);
        MultipleOf(1, Pow2(g));
        MultipleSum(start, Pow2(g), Pow2(g));
        var k := SplitAt(cs, start, t, end, g);
        GreedyOptimal(t, end, cs[k..]);
      } else {
        GreedyOptimal(t, end, []);
      }
    }
  }

  /** __free_pages_memory; `__ffs(0)` is undefined, so frame 0 is excluded as in the source. */
  method FreePagesMemory(start: nat, end: nat) returns (bs: seq<Block>)
    requires 0 < start
    ensures bs == Greedy(start, end)
    ensures start <= end ==> Tiling(bs, start, end)
  {
    bs := [];
    var pos := start;
    while pos < end
      invariant SplitSoFar(start, end, pos, bs)
    {
      var order := BestOrder(pos, end);
      SplitMore(start, end, pos, bs);
      bs := bs + [Block(pos, order)];
      pos := pos + Pow2(order);
    }
    if start <= end { GreedyOptimal(start, end, []); }
  }

  ghost predicate SplitSoFar(start: nat, end: nat, pos: nat, bs: seq<Block>) {
    0 < start <= pos && (start <= end ==> pos <= end) && Greedy(start, end) == bs + Greedy(pos, end)
  }

  lemma SplitMore(start: nat, end: nat, pos: nat, bs: seq<Block>)
    requires SplitSoFar(start, end, pos, bs) && pos < end
    ensures var g := GreedyOrder(pos, end); SplitSoFar(start, end, pos + Pow2(g), bs + [Block(pos, g)])
  {
  }

  /** The order of the next block: limited by alignment and MAX_ORDER, then lowered until the block fits. */
  method BestOrder(pos: nat, end: nat) returns (order: nat)
    requires 0 < pos < end
    ensures order == GreedyOrder(pos, end)
  {
    order := Min(MAX_ORDER - 1, Ffs(pos));
    while pos + Pow2(order) > end
      invariant FitOrder(pos, end, order) == GreedyOrder(pos, end)
      decreases order
    {
      order := order - 1;
    }
  }

  /** __free_memory_core: the count reported is the number of pages in the released blocks. */
  method FreeMemoryCore(start: nat, end: nat, maxLowPfn: nat) returns (count: nat, bs: seq<Block>)
    requires PfnUp(start) > 0
    ensures count == PageCount(bs)
    ensures var s, e := PfnUp(start), Min(PfnDown(end), maxLowPfn);
            if s >= e then bs == [] else Tiling(bs, s, e) && count == e - s
  {
    var start_pfn := PfnUp(start);
    var end_pfn := Min(PfnDown(end), maxLowPfn);
    if start_pfn >= end_pfn { return 0, []; }
    bs := FreePagesMemory(start_pfn, end_pfn);
    TilingIsExact(bs, start_pfn, end_pfn, 0);
    return end_pfn - start_pfn, bs;
  }
}
