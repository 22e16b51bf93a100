/**
 * The boot memory allocator (bootmem.c) as values: one node's bitmap, its hint and the end of its
 * last allocation; the reference first-fit search; and what one allocation does to a node.
 * Addresses and indices are unbounded.
 */
module BootModel {
  import opened Common

  /** A node covers page frames [min, low); bit i of `bits` says page min + i is reserved. */
  datatype Node = Node(min: nat, low: nat, bits: seq<bool>, hint: nat, lastEnd: nat)

  predicate WellFormed(nd: Node) { nd.min <= nd.low && |nd.bits| == nd.low - nd.min }

  predicate IsPow2(a: nat) { a == 1 || (a > 1 && a % 2 == 0 && IsPow2(a / 2)) }

  lemma Pow2Divides(a: nat, b: nat)
    requires IsPow2(a) && IsPow2(b) && a <= b
    ensures b % a == 0
  {
    if a > 1 {
      Pow2Divides(a / 2, b / 2);
      var q := (b / 2) / (a / 2);
      assert b / 2 == q * (a / 2);
      assert b == q * a;
      MultipleOf(q, a);
    }
  }

  lemma PageIsPow2()
    ensures IsPow2(PAGE_SIZE)
  {
  }

  // ---- marking ----

  function SetBits(bits: seq<bool>, a: nat, b: nat, v: bool): (r: seq<bool>)
    ensures |r| == |bits|
    ensures forall i :: 0 <= i < |bits| ==> r[i] == if a <= i < b then v else bits[i]
  {
    seq(|bits|, i requires 0 <= i < |bits| => if a <= i < b then v else bits[i])
  }

  predicate AllBits(bits: seq<bool>, a: nat, b: nat, v: bool)
    requires b <= |bits|
  {
    forall i :: a <= i < b ==> bits[i] == v
  }

  /** __free: the hint drops to the start of the freed range. */
  function Freed(nd: Node, a: nat, b: nat): (r: Node)
    requires WellFormed(nd) && b <= |nd.bits|
    ensures WellFormed(r)
  {
    nd.(bits := SetBits(nd.bits, a, b, false), hint := if nd.hint > a then a else nd.hint)
  }

  // ---- searching ----

  function StepOf(align: nat): (s: nat)
    ensures s >= 1
  {
    Max(align / PAGE_SIZE, 1)
  }

  function AlignIdx(nd: Node, idx: nat, step: nat): (r: nat)
    requires step > 0
    ensures idx <= r < idx + step && (nd.min + r) % step == 0
  {
    AlignUp(nd.min + idx, step) - nd.min
  }

  function AlignOff(nd: Node, off: nat, align: nat): (r: nat)
    requires align > 0
    ensures off <= r < off + align && (nd.min * PAGE_SIZE + r) % align == 0
  {
    AlignUp(nd.min * PAGE_SIZE + off, align) - nd.min * PAGE_SIZE
  }

  /** `s` starts a step-aligned run of `n` clear bits that ends at or before `midx`. */
  predicate Fits(nd: Node, s: nat, step: nat, n: nat, midx: nat)
    requires step > 0 && midx <= |nd.bits|
  {
    (nd.min + s) % step == 0 && s + n <= midx && AllBits(nd.bits, s, s + n, false)
  }

  /** The reference search: try every index in turn. */
  function FirstFit(nd: Node, from: nat, step: nat, n: nat, midx: nat): (r: Option<nat>)
    requires step > 0 && midx <= |nd.bits|
    ensures r.Some? ==> from <= r.value && Fits(nd, r.value, step, n, midx)
    ensures r.Some? ==> forall s :: from <= s < r.value ==> !Fits(nd, s, step, n, midx)
    ensures r.None? ==> forall s :: from <= s ==> !Fits(nd, s, step, n, midx)
    decreases midx - from
  {
    if from + n > midx then None
    else if Fits(nd, from, step, n, midx) then Some(from)
    else if from >= midx then None
    else FirstFit(nd, from + 1, step, n, midx)
  }

  /** Skipping indices that start no fitting run does not change the outcome. */
  lemma FirstFitSkip(nd: Node, from: nat, to: nat, step: nat, n: nat, midx: nat)
    requires step > 0 && midx <= |nd.bits| && from <= to
    requires forall i :: from <= i < to ==> !Fits(nd, i, step, n, midx)
    ensures FirstFit(nd, from, step, n, midx) == FirstFit(nd, to, step, n, midx)
  {
  }

  // ---- one allocation ----

  /** Upper end of the search, in page frames: limit rounded down to a page, unless that is 0. */
  function MaxPfn(nd: Node, limit: nat): nat {
    if PfnDown(limit) != 0 && nd.low > PfnDown(limit) then PfnDown(limit) else nd.low
  }

  /** The same as an index into the bitmap; 0 when the node lies above the limit. */
  function MidIdx(nd: Node, limit: nat): (r: nat)
    ensures WellFormed(nd) ==> r <= |nd.bits|
  {
    if MaxPfn(nd, limit) <= nd.min then 0 else MaxPfn(nd, limit) - nd.min
  }

  function StartIdx(nd: Node, align: nat, goal: nat, limit: nat): nat {
    var g := PfnDown(goal);
    AlignUp(if g != 0 && nd.min < g < MaxPfn(nd, limit) then g else nd.min, StepOf(align)) - nd.min
  }

  /** The index an allocation settles on: from the hint if it is ahead, else (or failing that) from the start. */
  function Chosen(nd: Node, size: nat, align: nat, goal: nat, limit: nat): (r: Option<nat>)
    requires WellFormed(nd)
  {
    if MaxPfn(nd, limit) <= nd.min then None
    else
      var step, n, midx := StepOf(align), PfnUp(size), MidIdx(nd, limit);
      var sidx := StartIdx(nd, align, goal, limit);
      var hinted := if nd.hint > sidx then FirstFit(nd, AlignIdx(nd, nd.hint, step), step, n, midx) else None;
      if hinted.Some? then hinted else FirstFit(nd, sidx, step, n, midx)
  }

  /** Completeness: no index is chosen exactly when no aligned run of clear bits lies in the window. */
  lemma ChosenComplete(nd: Node, size: nat, align: nat, goal: nat, limit: nat)
    requires WellFormed(nd) && size > 0
    ensures Chosen(nd, size, align, goal, limit).None? <==>
            forall s :: StartIdx(nd, align, goal, limit) <= s ==>
              !Fits(nd, s, StepOf(align), PfnUp(size), MidIdx(nd, limit))
    ensures var c := Chosen(nd, size, align, goal, limit);
            c.Some? ==>
              && StartIdx(nd, align, goal, limit) <= c.value
              && Fits(nd, c.value, StepOf(align), PfnUp(size), MidIdx(nd, limit))
  {
  }

  lemma StartIdxLeast(nd: Node, align: nat, limit: nat, s: nat)
    requires (nd.min + s) % StepOf(align) == 0
    ensures StartIdx(nd, align, 0, limit) <= s
  {
    AlignUpLeast(nd.min, StepOf(align), nd.min + s);
  }

  /** `n` page frames of the node from `p` on, between `lo` and `hi`, are clear, and the first is aligned in bytes. */
  ghost predicate FrameRun(nd: Node, p: nat, n: nat, align: nat, lo: nat, hi: nat)
    requires WellFormed(nd) && align > 0 && hi <= nd.low
  {
    && nd.min <= p && lo <= p && p + n <= hi && (p * PAGE_SIZE) % align == 0
    && forall q :: p <= q < p + n ==> ClearFrame(nd, q)
  }

  predicate ClearFrame(nd: Node, q: nat)
    requires WellFormed(nd)
  {
    nd.min <= q < nd.low && !nd.bits[q - nd.min]
  }

  lemma StepsOfPages(p: nat, step: nat, align: nat)
    requires step > 0 && align == step * PAGE_SIZE && (p * PAGE_SIZE) % align == 0
    ensures p % step == 0
  {
    var q := (p * PAGE_SIZE) / align;
    assert p * PAGE_SIZE == q * align;
    assert q * align == (q * step) * PAGE_SIZE;
    MulMonotone(p, q * step, PAGE_SIZE);
    MulMonotone(q * step, p, PAGE_SIZE);
    MultipleOf(q, step);
  }

  /** Frames in steps are exactly those whose address is aligned. */
  lemma AlignedFrames(p: nat, align: nat)
    requires IsPow2(align)
    ensures p % StepOf(align) == 0 <==> (p * PAGE_SIZE) % align == 0
  {
    PageIsPow2();
    if align <= PAGE_SIZE {
      Pow2Divides(align, PAGE_SIZE);
      MulMultiple(p, PAGE_SIZE, align);
    } else {
      Pow2Divides(PAGE_SIZE, align);
      if p % StepOf(align) == 0 {
        PagesOfSteps(p, StepOf(align), align);
      } else if (p * PAGE_SIZE) % align == 0 {
        StepsOfPages(p, StepOf(align), align);
      }
    }
  }

  lemma FitsIsFrameRun(nd: Node, s: nat, n: nat, align: nat, goal: nat, limit: nat, lo: nat)
    requires WellFormed(nd) && IsPow2(align) && n > 0 && MaxPfn(nd, limit) > nd.min
    requires var g := PfnDown(goal); lo == if nd.min < g < MaxPfn(nd, limit) then g else nd.min
    ensures StartIdx(nd, align, goal, limit) <= s && Fits(nd, s, StepOf(align), n, MidIdx(nd, limit))
            <==> FrameRun(nd, nd.min + s, n, align, lo, MaxPfn(nd, limit))
  {
    hide AlignUp, PfnDown, StepOf;
    var step := StepOf(align);
    AlignedFrames(nd.min + s, align);
    if (nd.min + s) % step == 0 && lo <= nd.min + s { AlignUpLeast(lo, step, nd.min + s); }
    if FrameRun(nd, nd.min + s, n, align, lo, MaxPfn(nd, limit)) {
      forall i | s <= i < s + n ensures !nd.bits[i] { assert ClearFrame(nd, nd.min + i); }
    }
  }

  /**
   * The same in page frames.  A goal strictly between the beginning of the node and the upper end is the
   * lower end of the search; any other goal is ignored.
   */
  lemma ChosenInFrames(nd: Node, size: nat, align: nat, goal: nat, limit: nat, lo: nat, hi: nat)
    requires WellFormed(nd) && size > 0 && IsPow2(align)
    requires hi == if PfnDown(limit) != 0 && PfnDown(limit) < nd.low then PfnDown(limit) else nd.low
    requires lo == if nd.min < PfnDown(goal) < hi then PfnDown(goal) else nd.min
    ensures var c := Chosen(nd, size, align, goal, limit);
            && (c.None? <==> forall p: nat :: !FrameRun(nd, p, PfnUp(size), align, lo, hi))
            && (c.Some? ==> FrameRun(nd, nd.min + c.value, PfnUp(size), align, lo, hi))
  {
    ChosenComplete(nd, size, align, goal, limit);
    var n := PfnUp(size);
    assert n > 0 && align > 0 && hi == MaxPfn(nd, limit);
    hide Chosen, Fits, StartIdx, MidIdx, PfnDown, PfnUp, StepOf, IsPow2;
    if hi > nd.min {
      forall s: nat
        ensures StartIdx(nd, align, goal, limit) <= s && Fits(nd, s, StepOf(align), n, MidIdx(nd, limit))
                <==> FrameRun(nd, nd.min + s, n, align, lo, hi)
      {
        FitsIsFrameRun(nd, s, n, align, goal, limit, lo);
      }
      forall p: nat | FrameRun(nd, p, n, align, lo, hi) ensures Chosen(nd, size, align, goal, limit).Some? {
        var s: nat := p - nd.min;
        assert nd.min + s == p;
        assert Fits(nd, s, StepOf(align), n, MidIdx(nd, limit));
      }
    } else {
      ChosenNowhere(nd, size, align, goal, limit);
    }
  }

  lemma ChosenNowhere(nd: Node, size: nat, align: nat, goal: nat, limit: nat)
    requires WellFormed(nd) && MaxPfn(nd, limit) <= nd.min
    ensures Chosen(nd, size, align, goal, limit).None?
  {
  }

  /** Byte offset of the new area: in the tail of the last page when that page ends right before the run. */
  function StartOff(nd: Node, sidx: nat, align: nat): nat
    requires align > 0
  {
    if nd.lastEnd % PAGE_SIZE != 0 && PfnDown(nd.lastEnd) + 1 == sidx then AlignOff(nd, nd.lastEnd, align)
    else sidx * PAGE_SIZE
  }

  function FirstNewPage(off: nat, sidx: nat): nat {
    PfnDown(off) + if PfnDown(off) < sidx then 1 else 0
  }

  /** The node after an allocation of `size` bytes at index `sidx`. */
  function Allocated(nd: Node, sidx: nat, size: nat, align: nat): (r: Node)
    requires WellFormed(nd) && align > 0
    ensures WellFormed(r)
  {
    var off := StartOff(nd, sidx, align);
    nd.(bits := SetBits(nd.bits, FirstNewPage(off, sidx), PfnUp(off + size), true),
        hint := PfnUp(off + size), lastEnd := off + size)
  }

  /** The area starts at or before the run and needs no page outside it, so the reservation cannot clash. */
  lemma StartOffBounds(nd: Node, sidx: nat, size: nat, align: nat)
    requires IsPow2(align) && (nd.min + sidx) % StepOf(align) == 0 && size > 0
    ensures var off := StartOff(nd, sidx, align);
            && off <= sidx * PAGE_SIZE
            && (nd.min * PAGE_SIZE + off) % align == 0
            && (off < sidx * PAGE_SIZE ==> nd.lastEnd % PAGE_SIZE != 0 && nd.lastEnd <= off && PfnDown(nd.lastEnd) + 1 == sidx)
            && (nd.lastEnd % PAGE_SIZE != 0 && PfnDown(nd.lastEnd) + 1 == sidx ==> nd.lastEnd <= off < nd.lastEnd + align)
            && FirstNewPage(off, sidx) == sidx
            && PfnUp(off + size) <= sidx + PfnUp(size)
  {
    RunAddressAligned(nd, sidx, align);
    if nd.lastEnd % PAGE_SIZE != 0 && PfnDown(nd.lastEnd) + 1 == sidx {
      AlignUpLeast(nd.min * PAGE_SIZE + nd.lastEnd, align, (nd.min + sidx) * PAGE_SIZE);
    }
  }

  lemma MulMultiple(p: nat, x: nat, a: nat)
    requires a > 0 && x % a == 0
    ensures (p * x) % a == 0
  {
    var q := x / a;
    assert x == q * a;
    assert p * x == (p * q) * a;
    MultipleOf(p * q, a);
  }

  lemma RunAddressAligned(nd: Node, sidx: nat, align: nat)
    requires IsPow2(align) && (nd.min + sidx) % StepOf(align) == 0
    ensures ((nd.min + sidx) * PAGE_SIZE) % align == 0
  {
    PageIsPow2();
    var p := nd.min + sidx;
    if align <= PAGE_SIZE {
      Pow2Divides(align, PAGE_SIZE);
      MulMultiple(p, PAGE_SIZE, align);
    } else {
      Pow2Divides(PAGE_SIZE, align);
      PagesOfSteps(p, StepOf(align), align);
    }
  }

  lemma PagesOfSteps(p: nat, step: nat, align: nat)
    requires step > 0 && p % step == 0 && align == step * PAGE_SIZE
    ensures (p * PAGE_SIZE) % align == 0
  {
    var q := p / step;
    assert p == q * step;
    MultipleOf(q, align);
    assert q * align == p * PAGE_SIZE;
  }
}
