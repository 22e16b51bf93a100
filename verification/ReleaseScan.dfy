/**
 * Handing the free pages of a node to the page allocator (free_all_bootmem_core in bootmem.c): the
 * bitmap is scanned a word at a time from page frame `min`, which need not be word aligned.
 */
module ReleaseScan {
  import opened Common
  import opened BuddySplit

  function PagesOf(b: Block): (r: seq<nat>)
    ensures b.order == 0 ==> r == [b.pfn]
    ensures b.order == 6 ==> |r| == 64
  {
    assert Pow2(2) == 4 && Pow2(4) == 16 && Pow2(6) == 64;
    seq(Pow2(b.order), i requires 0 <= i => b.pfn + i)
  }

  /** All pages handed over, in order. */
  function Expand(bs: seq<Block>): (r: seq<nat>) {
    if bs == [] then [] else Expand(bs[..|bs| - 1]) + PagesOf(bs[|bs| - 1])
  }

  ghost predicate Increasing(s: seq<nat>) {
    forall i, j :: 0 <= i < j < |s| ==> s[i] < s[j]
  }

  /** The bitmap of a node of `end - min` pages: whole words, with the padding marked reserved. */
  ghost predicate IsMap(bits: seq<bool>, min: nat, end: nat) {
    && min <= end && |bits| == AlignUp(end - min, 64)
    && forall i :: end - min <= i < |bits| ==> bits[i]
  }

  /**
   * Pages the scan overlooks: with less than a word left in an unaligned node, the map word that holds
   * the last pages is not read.
   */
  predicate Lost(min: nat, end: nat, p: nat) {
    var last := end / 64 * 64;
    min % 64 != 0 && last > min && p >= last + min % 64
  }

  /** Exactly the pages the scan hands over. */
  predicate Released(bits: seq<bool>, min: nat, end: nat, p: nat)
    requires end - min <= |bits|
  {
    min <= p < end && !bits[p - min] && !Lost(min, end, p)
  }

  ghost function ToRelease(bits: seq<bool>, min: nat, end: nat): (r: set<nat>)
    requires end - min <= |bits|
    ensures forall p: nat :: p in r <==> Released(bits, min, end, p)
  {
    set p: nat | min <= p < end && Released(bits, min, end, p)
  }

  /** Of the pages in `rel`, those below `upto` have been handed over, each once, and nothing else has. */
  ghost predicate ScannedTo(rel: set<nat>, upto: nat, bs: seq<Block>, count: nat) {
    && Increasing(Expand(bs)) && count == |Expand(bs)|
    && (forall b :: b in bs ==> b.order == 0 || (b.order == 6 && b.pfn % 64 == 0))
    && forall p: nat :: p in Expand(bs) <==> p < upto && p in rel
  }

  lemma Handed(rel: set<nat>, from: nat, bs: seq<Block>, count: nat, b: Block)
    requires ScannedTo(rel, from, bs, count) && from == b.pfn
    requires b.order == 0 || (b.order == 6 && b.pfn % 64 == 0)
    requires forall p: nat :: b.pfn <= p < b.pfn + |PagesOf(b)| ==> p in rel
    ensures ScannedTo(rel, b.pfn + |PagesOf(b)|, bs + [b], count + |PagesOf(b)|)
  {
    var cs := bs + [b];
    var to := b.pfn + |PagesOf(b)|;
    assert cs[..|cs| - 1] == bs;
    assert Expand(cs) == Expand(bs) + PagesOf(b);
    forall p: nat ensures p in Expand(cs) <==> p < to && p in rel {
      assert p in PagesOf(b) <==> b.pfn <= p < to by {
        if b.pfn <= p < to { assert PagesOf(b)[p - b.pfn] == p; }
      }
    }
    forall i, j | 0 <= i < j < |Expand(cs)| ensures Expand(cs)[i] < Expand(cs)[j] {
      if i < |Expand(bs)| { assert Expand(bs)[i] in Expand(bs); }
    }
  }

  lemma Passed(rel: set<nat>, from: nat, to: nat, bs: seq<Block>, count: nat)
    requires ScannedTo(rel, from, bs, count) && from <= to
    requires forall p: nat :: from <= p < to ==> p !in rel
    ensures ScannedTo(rel, to, bs, count)
  {
  }

  /** Bit `idx + k` is among the map bits the scan loads at `idx` with `rest` pages to go, and is clear. */
  predicate Seen(bits: seq<bool>, idx: nat, rest: nat, k: nat) {
    (idx % 64 + k < 64 || rest >= 64) && idx + k < |bits| && !bits[idx + k]
  }

  /** The 64 bits of `vec`: bit k is set when page start + k is seen to be free. */
  method LoadVec(bootmap: array<bool>, idx: nat, rest: nat) returns (vec: seq<bool>)
    requires bootmap.Length % 64 == 0 && idx < bootmap.Length
    requires rest >= 64 ==> idx + 64 <= bootmap.Length
    ensures |vec| == 64
    ensures forall k :: 0 <= k < 64 ==> (vec[k] <==> Seen(bootmap[..], idx, rest, k))
  {
    var shift := idx % 64;
    var w := idx / 64 * 64;
    vec := seq(64, k requires 0 <= k < 64 && w + 64 <= bootmap.Length reads bootmap => !bootmap[w + k]);
    if shift != 0 {
      vec := vec[shift..] + seq(shift, _ => false);
      if rest >= 64 {
        var next := seq(64, k requires 0 <= k < 64 && w + 128 <= bootmap.Length reads bootmap => !bootmap[w + 64 + k]);
        vec := vec[..64 - shift] + next[..shift];
      }
    }
  }

  /** Before the last partial word nothing is lost. */
  lemma NotLost(min: nat, end: nat, start: nat, p: nat)
    requires min <= start && start <= p < AlignUp(start + 1, 64)
    requires start == min || (start % 64 == 0 && end - start >= 64)
    ensures !Lost(min, end, p)
  {
  }

  /** In the last partial word, lost pages are those beyond the map word the scan reads. */
  lemma LostAtEnd(min: nat, end: nat, start: nat, k: nat)
    requires start % 64 == 0 && min < start < end < start + 64 && k < 64
    ensures Lost(min, end, start + k) <==> (start - min) % 64 + k >= 64
  {
  }

  /** A page seen free from `start` is a page to release, and the other way around. */
  lemma VecExact(bits: seq<bool>, min: nat, end: nat, start: nat, k: nat)
    requires IsMap(bits, min, end) && min <= start < end && (start == min || start % 64 == 0) && k < 64
    requires start + k < AlignUp(start + 1, 64)
    ensures Seen(bits, start - min, end - start, k) <==> Released(bits, min, end, start + k)
  {
    if start == min || end - start >= 64 {
      NotLost(min, end, start, start + k);
    } else {
      LostAtEnd(min, end, start, k);
    }
  }

  /**
   * free_all_bootmem_core up to the release of the bitmap itself.  No page is released twice, none
   * that is reserved or outside the node; all clear pages are, except those in `Lost`.
   */
  method FreeAll(bootmap: array<bool>, min: nat, end: nat) returns (bs: seq<Block>, count: nat)
    requires IsMap(bootmap[..], min, end)
    ensures ScannedTo(ToRelease(bootmap[..], min, end), end, bs, count)
  {
    bs, count := [], 0;
    var start := min;
    ghost var rel := ToRelease(bootmap[..], min, end);
    while start < end
      invariant min <= start && (start == min || start % 64 == 0)
      invariant ScannedTo(rel, start, bs, count)
    {
      var vec := LoadVec(bootmap, start - min, end - start);
      var next := AlignUp(start + 1, 64);
      VecIsExact(bootmap[..], min, end, start, vec);
      if start % 64 == 0 && AllSet(vec) {
        WordHanded(rel, start, vec, bs, count);
        bs, count, start := bs + [Block(start, 6)], count + 64, start + 64;
      } else {
        bs, count := FreeOneByOne(rel, start, vec, bs, count);
        start := next;
      }
    }
    assert forall p: nat :: p in rel ==> p < end;
  }

  predicate AllSet(vec: seq<bool>) { forall k :: 0 <= k < |vec| ==> vec[k] }
  predicate AllClear(vec: seq<bool>) { forall k :: 0 <= k < |vec| ==> !vec[k] }

  /** Bit k of `vec` says whether page start + k is to be released, up to page `next`. */
  ghost predicate VecIs(rel: set<nat>, start: nat, vec: seq<bool>, next: nat) {
    && start < next <= start + |vec|
    && forall p: nat :: start <= p < next ==> (p in rel <==> vec[p - start])
  }

  lemma VecIsExact(bits: seq<bool>, min: nat, end: nat, start: nat, vec: seq<bool>)
    requires IsMap(bits, min, end) && min <= start < end && (start == min || start % 64 == 0) && |vec| == 64
    requires forall k :: 0 <= k < 64 ==> (vec[k] <==> Seen(bits, start - min, end - start, k))
    ensures VecIs(ToRelease(bits, min, end), start, vec, AlignUp(start + 1, 64))
  {
    PagesExact(bits, min, end, start, vec, AlignUp(start + 1, 64) - start);
  }

  lemma {:induction false} PagesExact(bits: seq<bool>, min: nat, end: nat, start: nat, vec: seq<bool>, n: nat)
    requires IsMap(bits, min, end) && min <= start < end && (start == min || start % 64 == 0) && |vec| == 64
    requires forall k :: 0 <= k < 64 ==> (vec[k] <==> Seen(bits, start - min, end - start, k))
    requires start + n <= AlignUp(start + 1, 64)
    ensures forall p: nat :: start <= p < start + n ==> (p in ToRelease(bits, min, end) <==> vec[p - start])
  {
    if n > 0 {
      PagesExact(bits, min, end, start, vec, n - 1);
      VecExact(bits, min, end, start, n - 1);
    }
  }

  lemma WordHanded(rel: set<nat>, start: nat, vec: seq<bool>, bs: seq<Block>, count: nat)
    requires start % 64 == 0 && |vec| == 64 && AllSet(vec) && VecIs(rel, start, vec, AlignUp(start + 1, 64))
    requires ScannedTo(rel, start, bs, count)
    ensures ScannedTo(rel, start + 64, bs + [Block(start, 6)], count + 64)
  {
    MultiplesApart(start, AlignUp(start + 1, 64), 64);
    Handed(rel, start, bs, count, Block(start, 6));
  }

  /** The inner loop: shift `vec` right page by page until it is empty or the next word begins. */
  method FreeOneByOne(ghost rel: set<nat>, start: nat, vec0: seq<bool>, bs0: seq<Block>, count0: nat)
    returns (bs: seq<Block>, count: nat)
    requires |vec0| == 64 && VecIs(rel, start, vec0, AlignUp(start + 1, 64)) && ScannedTo(rel, start, bs0, count0)
    ensures ScannedTo(rel, AlignUp(start + 1, 64), bs, count)
  {
    var next := AlignUp(start + 1, 64);
    var cur, vec := start, vec0;
    bs, count := bs0, count0;
    while !AllClear(vec) && cur != next
      invariant Shifting(rel, cur, next, vec, bs, count)
      decreases next - cur
    {
      ShiftStep(rel, cur, next, vec, bs, count);
      if vec[0] {
        bs, count := bs + [Block(cur, 0)], count + 1;
      }
      vec := vec[1..] + [false];
      cur := cur + 1;
    }
    if cur != next {
      Passed(rel, cur, next, bs, count);
    }
  }

  /** The inner loop at page `cur`: bit k of `vec` stands for page cur + k. */
  ghost predicate Shifting(rel: set<nat>, cur: nat, next: nat, vec: seq<bool>, bs: seq<Block>, count: nat) {
    |vec| == 64 && cur <= next && ScannedTo(rel, cur, bs, count) && (cur < next ==> VecIs(rel, cur, vec, next))
  }

  lemma ShiftStep(rel: set<nat>, cur: nat, next: nat, vec: seq<bool>, bs: seq<Block>, count: nat)
    requires Shifting(rel, cur, next, vec, bs, count) && cur < next
    ensures Shifting(rel, cur + 1, next, vec[1..] + [false],
                     if vec[0] then bs + [Block(cur, 0)] else bs, if vec[0] then count + 1 else count)
  {
    assert cur in rel <==> vec[0];
    if vec[0] {
      Handed(rel, cur, bs, count, Block(cur, 0));
    } else {
      Passed(rel, cur, cur + 1, bs, count);
    }
  }

  /** Every clear page of the node is handed over. */
  ghost predicate Complete(bits: seq<bool>, min: nat, end: nat) {
    end - min <= |bits| && forall p: nat :: min <= p < end && !bits[p - min] ==> p in ToRelease(bits, min, end)
  }

  /** The shape of a node that leaves no page to overlook. */
  predicate NothingLost(min: nat, end: nat) { min % 64 == 0 || end / 64 * 64 <= min || end % 64 <= min % 64 }

  lemma LostExactly(min: nat, end: nat)
    requires min <= end
    ensures NothingLost(min, end) ==> forall p: nat :: min <= p < end ==> !Lost(min, end, p)
    ensures !NothingLost(min, end) ==> min < end && Lost(min, end, end - 1)
  {
    var last := end / 64 * 64;
    assert last + end % 64 == end;
  }

  /** The map of a node whose pages are all clear. */
  lemma ClearMap(min: nat, end: nat) returns (bits: seq<bool>)
    requires min <= end
    ensures IsMap(bits, min, end) && forall i :: 0 <= i < end - min ==> !bits[i]
  {
    bits := seq(end - min, _ => false) + seq(AlignUp(end - min, 64) - (end - min), _ => true);
  }

  lemma CompleteIf(bits: seq<bool>, min: nat, end: nat)
    requires min <= end && end - min <= |bits| && forall p: nat :: min <= p < end ==> !Lost(min, end, p)
    ensures Complete(bits, min, end)
  {
    hide Lost;
  }

  lemma IncompleteAt(bits: seq<bool>, min: nat, end: nat, p: nat)
    requires end - min <= |bits| && min <= p < end && !bits[p - min] && Lost(min, end, p)
    ensures !Complete(bits, min, end)
  {
    hide Lost;
    assert p !in ToRelease(bits, min, end);
  }

  /** The scan hands over every clear page, whatever the bitmap, exactly when the node has that shape. */
  lemma CompleteExactly(min: nat, end: nat)
    requires min <= end
    ensures (forall bits :: IsMap(bits, min, end) ==> Complete(bits, min, end)) <==> NothingLost(min, end)
  {
    hide NothingLost, Lost, Complete, IsMap;
    LostExactly(min, end);
    if NothingLost(min, end) {
      forall bits | IsMap(bits, min, end) ensures Complete(bits, min, end) {
        MapSize(bits, min, end);
        CompleteIf(bits, min, end);
      }
    } else {
      var bits := ClearMap(min, end);
      MapSize(bits, min, end);
      IncompleteAt(bits, min, end, end - 1);
    }
  }

  lemma MapSize(bits: seq<bool>, min: nat, end: nat)
    requires IsMap(bits, min, end)
    ensures min <= end && end - min <= |bits|
  {
  }

  /** A node of frames [1, 66) whose last page is clear: page 65 is never handed over. */
  lemma OverlookedPage(bits: seq<bool>)
    requires IsMap(bits, 1, 66) && !bits[64]
    ensures 65 !in ToRelease(bits, 1, 66)
  {
    assert Lost(1, 66, 65);
  }
}
