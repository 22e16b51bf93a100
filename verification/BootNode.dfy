/**
 * One node of the boot memory allocator as bootmem.c runs it: a bitmap updated in place, proved
 * against BootModel.
 */
module BootNode {
  import opened Common
  import opened BootModel

  class BootmemNode {
    const min: nat
    const low: nat
    const bootmap: array<bool>
    var hint: nat
    var lastEnd: nat

    ghost predicate Valid() { min <= low && bootmap.Length == low - min }

    ghost function View(): (nd: Node)
      reads this, bootmap
      ensures Valid() ==> WellFormed(nd)
    {
      Node(min, low, bootmap[..], hint, lastEnd)
    }

    /** init_bootmem_core: every page starts out reserved. */
    constructor (start: nat, end: nat)
      requires start <= end
      ensures Valid() && fresh(bootmap)
      ensures View() == Node(start, end, seq(end - start, _ => true), 0, 0)
    {
      min, low := start, end;
      bootmap := new bool[end - start](_ => true);
      hint, lastEnd := 0, 0;
      new;
      assert bootmap[..] == seq(end - start, _ => true);
    }

    /** __free; its BUG() fires exactly if some page of the range is not reserved. */
    method Free(sidx: nat, eidx: nat) returns (bug: bool)
      requires Valid() && eidx <= bootmap.Length
      modifies this`hint, bootmap
      ensures bug <==> !AllBits(old(bootmap[..]), sidx, eidx, true)
      ensures !bug ==> View() == Freed(old(View()), sidx, eidx)
    {
      if hint > sidx { hint := sidx; }
      var idx := sidx;
      while idx < eidx
        invariant sidx <= idx <= Max(sidx, eidx) && hint == Min(old(hint), sidx)
        invariant forall i :: 0 <= i < bootmap.Length ==> bootmap[i] == if sidx <= i < idx then false else old(bootmap[..])[i]
        invariant forall i :: sidx <= i < idx ==> old(bootmap[..])[i]
      {
        if !bootmap[idx] { return true; }
        bootmap[idx] := false;
        idx := idx + 1;
      }
      assert bootmap[..] == SetBits(old(bootmap[..]), sidx, eidx, false);
      return false;
    }

    /** __reserve: exclusive reservations undo themselves on the first page that is taken. */
    method Reserve(sidx: nat, eidx: nat, exclusive: bool) returns (busy: bool)
      requires Valid() && eidx <= bootmap.Length
      modifies this`hint, bootmap
      ensures busy <==> exclusive && !AllBits(old(bootmap[..]), sidx, eidx, false)
      ensures busy ==> View() == old(View()).(hint := hint) && hint == Min(old(hint), sidx)
      ensures !busy ==> View() == old(View()).(bits := SetBits(old(bootmap[..]), sidx, eidx, true))
    {
      var idx := sidx;
      while idx < eidx
        invariant sidx <= idx <= Max(sidx, eidx)
        invariant forall i :: 0 <= i < bootmap.Length ==> bootmap[i] == if sidx <= i < idx then true else old(bootmap[i])
        invariant exclusive ==> forall i :: sidx <= i < idx ==> !old(bootmap[i])
        invariant hint == old(hint)
      {
        var was := bootmap[idx];
        bootmap[idx] := true;
        if was && exclusive {
          assert old(bootmap[..])[idx];
          var bug := Free(sidx, idx);
          assert !bug && bootmap[..] == old(bootmap[..]);
          return true;
        }
        idx := idx + 1;
      }
      assert bootmap[..] == SetBits(old(bootmap[..]), sidx, eidx, true);
      return false;
    }

    /** The search loop of alloc_bootmem_bdata: skip to a clear bit, align, test the run, jump past a set bit. */
    method FindBlock(from: nat, midx: nat, step: nat, n: nat) returns (r: Option<nat>)
      requires Valid() && step > 0 && n > 0 && midx <= bootmap.Length
      ensures r == FirstFit(View(), from, step, n, midx)
    {
      hide FirstFit, AlignUp;
      ghost var nd := View();
      var sidx := from;
      while true
        invariant from <= sidx
        invariant FirstFit(nd, from, step, n, midx) == FirstFit(nd, sidx, step, n, midx)
        decreases if sidx < midx then midx - sidx else 0
      {
        ghost var at := sidx;
        sidx := FindNextZeroBit(bootmap, midx, sidx);
        SkipSet(nd, at, sidx, step, n, midx);
        ghost var zero := sidx;
        sidx := AlignUp(min + sidx, step) - min;
        SkipUnaligned(nd, zero, sidx, step, n, midx);
        var eidx := sidx + n;
        if sidx >= midx || eidx > midx { return None; }
        var i := sidx;
        while i < eidx && !bootmap[i]
          invariant sidx <= i <= eidx
          invariant forall j :: sidx <= j < i ==> !bootmap[j]
        {
          i := i + 1;
        }
        if i == eidx {
          assert Fits(nd, sidx, step, n, midx);
          return Some(sidx);
        }
        ghost var tried := sidx;
        sidx := AlignUp(min + i, step) - min;
        if sidx == i { sidx := sidx + step; }
        SkipPast(nd, tried, i, sidx, step, n, midx);
      }
    }

    /** The first half of alloc_bootmem_bdata: window, hint, first pass and fallback pass. */
    method Search(size: nat, align: nat, goal: nat, limit: nat) returns (found: Option<nat>)
      requires Valid() && size > 0
      ensures found == Chosen(View(), size, align, goal, limit)
    {
      assert PfnUp(size) > 0;
      hide FirstFit, Fits, AlignUp, PfnUp, PfnDown;
      var max := low;
      var g, l := PfnDown(goal), PfnDown(limit);
      if l != 0 && max > l { max := l; }
      if max <= min { return None; }
      var step := Max(align / PAGE_SIZE, 1);
      assert step == StepOf(align);
      hide StepOf;
      var start;
      if g != 0 && min < g < max { start := AlignUp(g, step); } else { start := AlignUp(min, step); }
      var sidx := start - min;
      var midx := max - min;
      assert sidx == StartIdx(View(), align, goal, limit) && midx == MidIdx(View(), limit);
      var n := PfnUp(size);
      found := None;
      if hint > sidx {
        found := FindBlock(AlignUp(min + hint, step) - min, midx, step, n);
      }
      if found.None? {
        found := FindBlock(sidx, midx, step, n); // first pass, or the fallback
      }
    }

    /** alloc_bootmem_bdata; the arguments its BUG_ONs reject are excluded. */
    method AllocBdata(size: nat, align: nat, goal: nat, limit: nat) returns (r: Option<nat>)
      requires Valid() && size > 0 && IsPow2(align) && (limit == 0 || goal + size <= limit)
      modifies this, bootmap
      ensures match Chosen(old(View()), size, align, goal, limit)
              case None => r == None && View() == old(View())
              case Some(sidx) =>
                && r == Some(min * PAGE_SIZE + StartOff(old(View()), sidx, align))
                && View() == Allocated(old(View()), sidx, size, align)
    {
      var found := Search(size, align, goal, limit);
      if found.None? { return None; }
      ChosenComplete(View(), size, align, goal, limit);
      var region := Take(found.value, size, align);
      return Some(region);
    }

    /** The second half of alloc_bootmem_bdata, once a run is found. */
    method Take(sidx: nat, size: nat, align: nat) returns (region: nat)
      requires Valid() && size > 0 && IsPow2(align)
      requires (min + sidx) % StepOf(align) == 0 && sidx + PfnUp(size) <= bootmap.Length
      requires AllBits(bootmap[..], sidx, sidx + PfnUp(size), false)
      modifies this, bootmap
      ensures region == min * PAGE_SIZE + StartOff(old(View()), sidx, align)
      ensures View() == Allocated(old(View()), sidx, size, align)
    {
      StartOffBounds(View(), sidx, size, align);
      hide AlignUp, PfnUp, PfnDown, StepOf, IsPow2;
      var start_off := sidx * PAGE_SIZE;
      if lastEnd % PAGE_SIZE != 0 && PfnDown(lastEnd) + 1 == sidx {
        start_off := AlignUp(min * PAGE_SIZE + lastEnd, align) - min * PAGE_SIZE;
      }
      assert start_off == StartOff(View(), sidx, align);
      var merge := if PfnDown(start_off) < sidx then 1 else 0;
      var end_off := start_off + size;
      lastEnd := end_off;
      hint := PfnUp(end_off);
      var busy := Reserve(PfnDown(start_off) + merge, PfnUp(end_off), true);
      assert !busy; // otherwise BUG()
      return min * PAGE_SIZE + start_off;
    }
  }

  lemma SkipSet(nd: Node, a: nat, b: nat, step: nat, n: nat, midx: nat)
    requires WellFormed(nd) && step > 0 && n > 0 && b <= midx <= |nd.bits|
    requires a > b ==> b == midx
    requires forall i :: a <= i < b ==> nd.bits[i]
    ensures FirstFit(nd, a, step, n, midx) == FirstFit(nd, b, step, n, midx)
  {
    forall i | a <= i < b ensures !Fits(nd, i, step, n, midx) {
      assert nd.bits[i];
    }
    if a <= b { FirstFitSkip(nd, a, b, step, n, midx); }
  }

  lemma SkipUnaligned(nd: Node, a: nat, b: nat, step: nat, n: nat, midx: nat)
    requires step > 0 && midx <= |nd.bits| && b == AlignIdx(nd, a, step)
    ensures FirstFit(nd, a, step, n, midx) == FirstFit(nd, b, step, n, midx)
  {
    forall i | a <= i < b ensures !Fits(nd, i, step, n, midx) {
      if (nd.min + i) % step == 0 { AlignUpLeast(nd.min + a, step, nd.min + i); }
    }
    FirstFitSkip(nd, a, b, step, n, midx);
  }

  /** Every run that starts at or before the set bit `i` but not before `s` contains it. */
  lemma SkipPast(nd: Node, s: nat, i: nat, to: nat, step: nat, n: nat, midx: nat)
    requires WellFormed(nd) && step > 0 && s <= i < s + n <= midx <= |nd.bits| && nd.bits[i]
    requires to == if AlignIdx(nd, i, step) == i then i + step else AlignIdx(nd, i, step)
    ensures i < to && FirstFit(nd, s, step, n, midx) == FirstFit(nd, to, step, n, midx)
  {
    forall c | s <= c < to ensures !Fits(nd, c, step, n, midx) {
      if c > i && (nd.min + c) % step == 0 {
        AlignUpLeast(nd.min + i, step, nd.min + c);
        MultiplesApart(nd.min + i, nd.min + c, step);
      }
    }
    FirstFitSkip(nd, s, to, step, n, midx);
  }
}
