/**
 * Whole runs of the boot memory allocator: RAM is registered, areas are allocated and freed, in any
 * order and on any number of nodes.  Callers free only bytes they were handed.
 */
module BootRuns {
  import opened Common
  import opened BootModel
  import BootList

  /** `owner` maps every live byte to the allocation it belongs to; `ram` are the registered page frames. */
  datatype Sys = Sys(nodes: seq<Node>, owner: map<nat, nat>, ram: set<nat>, ids: nat)

  function Bytes(a: nat, n: nat): (r: set<nat>)
    ensures forall b: nat :: b in r <==> a <= b < a + n
  {
    if n == 0 then {} else Bytes(a, n - 1) + {a + n - 1}
  }

  function Pages(p: nat, q: nat): (r: set<nat>)
    requires p <= q
    ensures forall x: nat :: x in r <==> p <= x < q
  {
    Bytes(p, q - p)
  }

  predicate OnNode(nd: Node, b: nat) { nd.min * PAGE_SIZE <= b < nd.low * PAGE_SIZE }

  predicate Holds(nd: Node, p: nat) { nd.min <= p < nd.low }

  /** Some node holds page frame p. */
  ghost predicate Hosted(vs: seq<Node>, p: nat) { exists k :: 0 <= k < |vs| && Holds(vs[k], p) }

  /** The list is kept sorted by link_bootmem. */
  ghost predicate Sorted(vs: seq<Node>) { forall k, l :: 0 <= k < l < |vs| ==> vs[k].min <= vs[l].min }

  /** The rest of the page in which the last allocation of a node ended belongs to nobody. */
  ghost predicate TailFree(nd: Node, owner: map<nat, nat>) {
    forall b: nat :: nd.min * PAGE_SIZE + nd.lastEnd <= b < (nd.min + PfnDown(nd.lastEnd) + 1) * PAGE_SIZE ==> b !in owner
  }

  /** Every live byte is on a reserved page. */
  ghost predicate LiveReserved(nd: Node, owner: map<nat, nat>)
    requires WellFormed(nd)
  {
    forall b :: b in owner && OnNode(nd, b) ==> nd.bits[PfnDown(b) - nd.min]
  }

  /** Every clear page is registered RAM. */
  ghost predicate ClearIsRam(nd: Node, ram: set<nat>)
    requires WellFormed(nd)
  {
    forall i :: 0 <= i < |nd.bits| && !nd.bits[i] ==> nd.min + i in ram
  }

  /** The page in which the last allocation ended is reserved RAM, and its tail is free. */
  ghost predicate TailOk(nd: Node, owner: map<nat, nat>, ram: set<nat>)
    requires WellFormed(nd)
  {
    nd.lastEnd % PAGE_SIZE != 0 ==>
      && PfnDown(nd.lastEnd) < |nd.bits| && nd.bits[PfnDown(nd.lastEnd)]
      && nd.min + PfnDown(nd.lastEnd) in ram && TailFree(nd, owner)
  }

  ghost predicate NodeInv(nd: Node, owner: map<nat, nat>, ram: set<nat>) {
    WellFormed(nd) && LiveReserved(nd, owner) && ClearIsRam(nd, ram) && TailOk(nd, owner, ram)
  }

  ghost predicate SysInv(s: Sys) {
    && LayoutOk(s.nodes, s.ram)
    && (forall k :: 0 <= k < |s.nodes| ==> NodeInv(s.nodes[k], s.owner, s.ram))
    && (forall b :: b in s.owner ==> PfnDown(b) in s.ram)
  }

  ghost predicate Init(s: Sys) {
    && BootList.DisjointNodes(s.nodes) && Sorted(s.nodes) && s.owner == map[] && s.ram == {}
    && forall k :: 0 <= k < |s.nodes| ==>
         WellFormed(s.nodes[k]) && AllBits(s.nodes[k].bits, 0, |s.nodes[k].bits|, true) && s.nodes[k].lastEnd == 0
  }

  /** free_bootmem over RAM that was not registered before, within node k. */
  ghost predicate Register(s: Sys, s': Sys, k: nat, a: nat, b: nat) {
    && k < |s.nodes| && WellFormed(s.nodes[k]) && a <= b <= |s.nodes[k].bits|
    && Pages(s.nodes[k].min + a, s.nodes[k].min + b) !! s.ram
    && s' == s.(nodes := s.nodes[k := Freed(s.nodes[k], a, b)],
                ram := s.ram + Pages(s.nodes[k].min + a, s.nodes[k].min + b))
  }

  /** An allocation on a node: a given one, or the one found in the list. */
  ghost predicate Alloc(s: Sys, s': Sys, at: nat, size: nat, align: nat, goal: nat, limit: nat, addr: nat) {
    && size > 0
    && BootList.AllocatedOn(s.nodes, s'.nodes, at, size, align, goal, limit, addr)
    && s' == Sys(s'.nodes, s.owner + (map b | b in Bytes(addr, size) :: s.ids), s.ram, s.ids + 1)
  }

  /** The bits of whole pages in [p, q) are cleared; a hint may move. */
  ghost predicate PagesCleared(nd: Node, nd': Node, p: nat, q: nat) {
    && WellFormed(nd) && nd' == nd.(bits := nd'.bits, hint := nd'.hint) && |nd'.bits| == |nd.bits|
    && forall i :: 0 <= i < |nd.bits| ==> nd'.bits[i] == (nd.bits[i] && !(p <= nd.min + i < q))
  }

  /** free_bootmem of bytes that are live, where it reaches no BUG(): partial pages stay reserved. */
  ghost predicate Free(s: Sys, s': Sys, addr: nat, size: nat) {
    && Bytes(addr, size) <= s.owner.Keys && BootList.Frees(s.nodes, PfnUp(addr), PfnDown(addr + size))
    && |s'.nodes| == |s.nodes|
    && (forall k :: 0 <= k < |s.nodes| ==>
          PagesCleared(s.nodes[k], s'.nodes[k], PfnUp(addr), PfnDown(addr + size)))
    && s' == Sys(s'.nodes, s.owner - Bytes(addr, size), s.ram, s.ids)
  }

  ghost predicate Next(s: Sys, s': Sys) {
    || (exists k: nat, a: nat, b: nat :: Register(s, s', k, a, b))
    || (exists at: nat, size: nat, align: nat, goal: nat, limit: nat, addr: nat :: Alloc(s, s', at, size, align, goal, limit, addr))
    || (exists addr: nat, size: nat :: Free(s, s', addr, size))
  }

  /** Page frames of the nodes, in order. */
  ghost predicate SameBounds(vs: seq<Node>, ws: seq<Node>) {
    |vs| == |ws| && forall k :: 0 <= k < |vs| ==> ws[k].min == vs[k].min && ws[k].low == vs[k].low
  }

  /** What only depends on the bounds of the nodes. */
  ghost predicate LayoutOk(vs: seq<Node>, ram: set<nat>) {
    BootList.DisjointNodes(vs) && Sorted(vs) && forall p {:trigger Hosted(vs, p)} :: p in ram ==> Hosted(vs, p)
  }

  lemma LayoutKept(vs: seq<Node>, ws: seq<Node>, ram: set<nat>)
    requires LayoutOk(vs, ram) && SameBounds(vs, ws)
    ensures LayoutOk(ws, ram)
  {
    forall p | p in ram ensures Hosted(ws, p) {
      assert Hosted(vs, p);
      var k :| 0 <= k < |vs| && Holds(vs[k], p);
      assert Holds(ws[k], p);
    }
  }

  // ---- allocation ----

  /** `sidx` starts an aligned run of clear pages long enough for `size` bytes. */
  ghost predicate Placed(nd: Node, sidx: nat, size: nat, align: nat) {
    && size > 0 && IsPow2(align) && WellFormed(nd)
    && (nd.min + sidx) % StepOf(align) == 0 && sidx + PfnUp(size) <= |nd.bits|
    && AllBits(nd.bits, sidx, sidx + PfnUp(size), false)
  }

  /**
   * A goal inside the node and below the limit is met: the area begins at or above it, or in the free tail of
   * the page right before it.
   */
  ghost predicate GoalMet(nd: Node, goal: nat, limit: nat, addr: nat) {
    var g := PfnDown(goal);
    nd.min < g < MaxPfn(nd, limit) ==>
      || g * PAGE_SIZE <= addr
      || (nd.lastEnd % PAGE_SIZE != 0 && nd.min + PfnDown(nd.lastEnd) + 1 == g && nd.min * PAGE_SIZE + nd.lastEnd <= addr)
  }

  lemma GoalIsMet(nd: Node, size: nat, align: nat, goal: nat, limit: nat, c: nat)
    requires WellFormed(nd) && size > 0 && IsPow2(align) && Chosen(nd, size, align, goal, limit) == Some(c)
    ensures GoalMet(nd, goal, limit, nd.min * PAGE_SIZE + StartOff(nd, c, align))
  {
    ChosenComplete(nd, size, align, goal, limit);
    StartOffBounds(nd, c, size, align);
    var g, off := PfnDown(goal), StartOff(nd, c, align);
    if nd.min < g < MaxPfn(nd, limit) {
      assert nd.min + c >= g;
    }
  }

  /** Where an area chosen on a node lies. */
  lemma AreaPlaced(nd: Node, size: nat, align: nat, goal: nat, limit: nat, c: nat)
    requires WellFormed(nd) && size > 0 && IsPow2(align) && Chosen(nd, size, align, goal, limit) == Some(c)
    ensures Placed(nd, c, size, align)
    ensures var addr := nd.min * PAGE_SIZE + StartOff(nd, c, align);
            && addr % align == 0 && nd.min * PAGE_SIZE <= addr && addr + size <= nd.low * PAGE_SIZE
            && (limit >= PAGE_SIZE ==> addr + size <= limit) && GoalMet(nd, goal, limit, addr)
    ensures BootList.HasRoom(nd, size, align, goal, limit) ==>
              && (limit > 0 ==> nd.min * PAGE_SIZE + StartOff(nd, c, align) + size <= limit) && (goal > 0 ==> PfnDown(goal) < nd.low)
  {
    ChosenComplete(nd, size, align, goal, limit);
    StartOffBounds(nd, c, size, align);
    GoalIsMet(nd, size, align, goal, limit, c);
    hide GoalMet, StartOff, Chosen, StartIdx, IsPow2;
  }

  /** No byte of the new area is live, it is aligned, and it lies on its node below the limit. */
  lemma AllocFresh(s: Sys, s': Sys, at: nat, size: nat, align: nat, goal: nat, limit: nat, addr: nat)
    requires SysInv(s) && Alloc(s, s', at, size, align, goal, limit, addr)
    ensures Bytes(addr, size) !! s.owner.Keys
    ensures addr % align == 0
    ensures s.nodes[at].min * PAGE_SIZE <= addr && addr + size <= s.nodes[at].low * PAGE_SIZE
    ensures limit >= PAGE_SIZE ==> addr + size <= limit
    ensures limit > 0 && BootList.AllocatedAt(s.nodes, s'.nodes, at, size, align, goal, limit, addr) ==> addr + size <= limit
    ensures GoalMet(s.nodes[at], goal, limit, addr)
    ensures goal > 0 && BootList.AllocatedAt(s.nodes, s'.nodes, at, size, align, goal, limit, addr) ==> PfnDown(goal) < s.nodes[at].low
  {
    var nd := s.nodes[at];
    var sidx := Chosen(nd, size, align, goal, limit).value;
    AreaPlaced(nd, size, align, goal, limit, sidx);
    assert NodeInv(nd, s.owner, s.ram);
    hide Chosen, StartOff, GoalMet, NodeInv, Placed, PfnDown, Allocated, BootList.HasRoom, IsPow2;
    forall b: nat | addr <= b < addr + size ensures b !in s.owner {
      ByteFresh(nd, s.owner, s.ram, sidx, size, align, b);
    }
  }

  lemma ByteFresh(nd: Node, owner: map<nat, nat>, ram: set<nat>, sidx: nat, size: nat, align: nat, b: nat)
    requires NodeInv(nd, owner, ram) && Placed(nd, sidx, size, align)
    requires var a := nd.min * PAGE_SIZE + StartOff(nd, sidx, align); a <= b < a + size
    ensures b !in owner && OnNode(nd, b)
  {
    StartOffBounds(nd, sidx, size, align);
    var off := StartOff(nd, sidx, align);
    var p := PfnDown(b) - nd.min;
    if p >= sidx {
      assert !nd.bits[p];
    }
  }

  lemma AllocKeepsNode(nd: Node, owner: map<nat, nat>, owner': map<nat, nat>, ram: set<nat>, sidx: nat, size: nat, align: nat, addr: nat)
    requires NodeInv(nd, owner, ram) && Placed(nd, sidx, size, align)
    requires addr == nd.min * PAGE_SIZE + StartOff(nd, sidx, align)
    requires forall b: nat :: b in owner' <==> b in owner || addr <= b < addr + size
    ensures NodeInv(Allocated(nd, sidx, size, align), owner', ram)
  {
    hide StartOff, TailFree, LiveReserved, TailOk, PfnDown, PfnUp, FirstNewPage;
    AllocLiveReserved(nd, owner, owner', ram, sidx, size, align, addr);
    AllocTailOk(nd, owner, owner', ram, sidx, size, align, addr);
  }

  lemma AllocLiveReserved(nd: Node, owner: map<nat, nat>, owner': map<nat, nat>, ram: set<nat>, sidx: nat, size: nat, align: nat, addr: nat)
    requires NodeInv(nd, owner, ram) && Placed(nd, sidx, size, align)
    requires addr == nd.min * PAGE_SIZE + StartOff(nd, sidx, align)
    requires forall b: nat :: b in owner' <==> b in owner || addr <= b < addr + size
    ensures LiveReserved(Allocated(nd, sidx, size, align), owner')
  {
    var nd' := Allocated(nd, sidx, size, align);
    assert nd'.min == nd.min && nd'.low == nd.low;
    hide StartOff, NodeInv, Placed, Allocated;
    forall b | b in owner' && OnNode(nd', b) ensures nd'.bits[PfnDown(b) - nd.min] {
      OwnedBit(nd, owner, ram, sidx, size, align, b);
    }
  }

  lemma AllocTailOk(nd: Node, owner: map<nat, nat>, owner': map<nat, nat>, ram: set<nat>, sidx: nat, size: nat, align: nat, addr: nat)
    requires NodeInv(nd, owner, ram) && Placed(nd, sidx, size, align)
    requires addr == nd.min * PAGE_SIZE + StartOff(nd, sidx, align)
    requires forall b: nat :: b in owner' <==> b in owner || addr <= b < addr + size
    ensures TailOk(Allocated(nd, sidx, size, align), owner', ram)
  {
    var nd' := Allocated(nd, sidx, size, align);
    hide StartOff, NodeInv, Placed, FirstNewPage, PfnUp, PfnDown;
    if nd'.lastEnd % PAGE_SIZE != 0 {
      LastPage(nd, owner, ram, sidx, size, align);
      forall b: nat | nd.min * PAGE_SIZE + nd'.lastEnd <= b < (nd.min + PfnDown(nd'.lastEnd) + 1) * PAGE_SIZE ensures b !in owner' {
        TailByte(nd, owner, ram, sidx, size, align, b);
      }
    }
  }

  lemma OwnedBit(nd: Node, owner: map<nat, nat>, ram: set<nat>, sidx: nat, size: nat, align: nat, b: nat)
    requires NodeInv(nd, owner, ram) && Placed(nd, sidx, size, align) && OnNode(nd, b)
    requires var a := nd.min * PAGE_SIZE + StartOff(nd, sidx, align); b in owner || a <= b < a + size
    ensures Allocated(nd, sidx, size, align).bits[PfnDown(b) - nd.min]
  {
  }

  lemma PageOfAreaInRam(nd: Node, owner: map<nat, nat>, ram: set<nat>, sidx: nat, size: nat, align: nat, b: nat)
    requires NodeInv(nd, owner, ram) && Placed(nd, sidx, size, align)
    requires var a := nd.min * PAGE_SIZE + StartOff(nd, sidx, align); a <= b < a + size
    ensures PfnDown(b) in ram
  {
    StartOffBounds(nd, sidx, size, align);
    var p := PfnDown(b) - nd.min;
    if p >= sidx {
      assert !nd.bits[p];
    } else {
      assert p == PfnDown(nd.lastEnd);
    }
  }

  /** The page in which the new area ends is reserved and registered. */
  lemma LastPage(nd: Node, owner: map<nat, nat>, ram: set<nat>, sidx: nat, size: nat, align: nat)
    requires NodeInv(nd, owner, ram) && Placed(nd, sidx, size, align)
    requires Allocated(nd, sidx, size, align).lastEnd % PAGE_SIZE != 0
    ensures var nd' := Allocated(nd, sidx, size, align);
            PfnDown(nd'.lastEnd) < |nd'.bits| && nd'.bits[PfnDown(nd'.lastEnd)] && nd.min + PfnDown(nd'.lastEnd) in ram
  {
    StartOffBounds(nd, sidx, size, align);
    var p := PfnDown(Allocated(nd, sidx, size, align).lastEnd);
    if p >= sidx {
      assert !nd.bits[p];
    } else {
      assert p == PfnDown(nd.lastEnd);
    }
  }

  /** A byte past the new area on its last page was free before: the page was clear, or it is the old tail. */
  lemma TailByte(nd: Node, owner: map<nat, nat>, ram: set<nat>, sidx: nat, size: nat, align: nat, b: nat)
    requires NodeInv(nd, owner, ram) && Placed(nd, sidx, size, align)
    requires var e := StartOff(nd, sidx, align) + size;
             e % PAGE_SIZE != 0 && nd.min * PAGE_SIZE + e <= b < (nd.min + PfnDown(e) + 1) * PAGE_SIZE
    ensures b !in owner
  {
    StartOffBounds(nd, sidx, size, align);
    var p := PfnDown(b) - nd.min;
    if p >= sidx {
      assert !nd.bits[p];
    } else {
      assert p == PfnDown(nd.lastEnd);
    }
  }

  /** Page p of the node has a byte of [addr, addr + size). */
  predicate Meets(p: nat, addr: nat, size: nat) { p * PAGE_SIZE < addr + size && addr < (p + 1) * PAGE_SIZE }

  /** Exactly the pages that the new area meets are reserved with it. */
  lemma AllocMarksExactly(nd: Node, owner: map<nat, nat>, ram: set<nat>, sidx: nat, size: nat, align: nat, i: nat)
    requires NodeInv(nd, owner, ram) && Placed(nd, sidx, size, align) && i < |nd.bits|
    ensures var addr := nd.min * PAGE_SIZE + StartOff(nd, sidx, align);
            Allocated(nd, sidx, size, align).bits[i] <==> nd.bits[i] || Meets(nd.min + i, addr, size)
  {
    StartOffBounds(nd, sidx, size, align);
    var off := StartOff(nd, sidx, align);
    assert Meets(nd.min + i, nd.min * PAGE_SIZE + off, size) <==> i * PAGE_SIZE < off + size && off < (i + 1) * PAGE_SIZE;
    hide StartOff;
    if i < sidx && off < (i + 1) * PAGE_SIZE {
      assert i == PfnDown(nd.lastEnd);
    }
  }

  /**
   * Small areas share pages: an area whose run begins right behind the page in which the last one ended
   * begins less than its alignment behind that end.
   */
  lemma NextContinues(nd: Node, sidx: nat, size: nat, align: nat, sidx2: nat, size2: nat, align2: nat)
    requires Placed(nd, sidx, size, align)
    requires var r := Allocated(nd, sidx, size, align); Placed(r, sidx2, size2, align2)
    requires var e := StartOff(nd, sidx, align) + size; e % PAGE_SIZE != 0 && sidx2 == PfnUp(e)
    ensures var e, next := StartOff(nd, sidx, align) + size, StartOff(Allocated(nd, sidx, size, align), sidx2, align2);
            e <= next < e + align2
  {
    var r, e := Allocated(nd, sidx, size, align), StartOff(nd, sidx, align) + size;
    assert PfnDown(e) + 1 == PfnUp(e);
    StartOffBounds(r, sidx2, size2, align2);
  }

  /** A node that has none of the bytes that change owner keeps its invariant. */
  lemma OtherNode(nd: Node, owner: map<nat, nat>, owner': map<nat, nat>, ram: set<nat>, ram': set<nat>)
    requires NodeInv(nd, owner, ram) && ram <= ram'
    requires forall b: nat :: OnNode(nd, b) ==> (b in owner' ==> b in owner)
    ensures NodeInv(nd, owner', ram')
  {
  }

  /** The bookkeeping of an allocation at index `sidx` of node `at`, however the index was found. */
  ghost predicate PlacedAt(s: Sys, s': Sys, at: nat, sidx: nat, size: nat, align: nat, addr: nat) {
    && at < |s.nodes| && Placed(s.nodes[at], sidx, size, align)
    && addr == s.nodes[at].min * PAGE_SIZE + StartOff(s.nodes[at], sidx, align)
    && s.nodes[at].min * PAGE_SIZE <= addr && addr + size <= s.nodes[at].low * PAGE_SIZE
    && s'.nodes == s.nodes[at := Allocated(s.nodes[at], sidx, size, align)] && s'.ram == s.ram
    && forall b: nat :: b in s'.owner <==> b in s.owner || addr <= b < addr + size
  }

  lemma AllocKeeps(s: Sys, s': Sys, at: nat, size: nat, align: nat, goal: nat, limit: nat, addr: nat)
    requires SysInv(s) && Alloc(s, s', at, size, align, goal, limit, addr)
    ensures SysInv(s')
  {
    ChosenComplete(s.nodes[at], size, align, goal, limit);
    AllocFresh(s, s', at, size, align, goal, limit, addr);
    PlacedKeeps(s, s', at, Chosen(s.nodes[at], size, align, goal, limit).value, size, align, addr);
  }

  lemma PlacedKeeps(s: Sys, s': Sys, at: nat, sidx: nat, size: nat, align: nat, addr: nat)
    requires SysInv(s) && PlacedAt(s, s', at, sidx, size, align, addr)
    ensures SysInv(s')
  {
    LayoutKept(s.nodes, s'.nodes, s.ram);
    forall k | 0 <= k < |s'.nodes| ensures NodeInv(s'.nodes[k], s'.owner, s'.ram) {
      if k == at {
        AllocKeepsNode(s.nodes[at], s.owner, s'.owner, s.ram, sidx, size, align, addr);
      } else {
        AllocElsewhere(s.nodes[k], s.nodes[at], s.owner, s'.owner, s.ram, addr, size);
      }
    }
    forall b | b in s'.owner ensures PfnDown(b) in s'.ram {
      if b !in s.owner {
        PageOfAreaInRam(s.nodes[at], s.owner, s.ram, sidx, size, align, b);
      }
    }
  }

  lemma AllocElsewhere(nd: Node, md: Node, owner: map<nat, nat>, owner': map<nat, nat>, ram: set<nat>, addr: nat, size: nat)
    requires NodeInv(nd, owner, ram) && (nd.low <= md.min || md.low <= nd.min)
    requires md.min * PAGE_SIZE <= addr && addr + size <= md.low * PAGE_SIZE
    requires forall b: nat :: b in owner' <==> b in owner || addr <= b < addr + size
    ensures NodeInv(nd, owner', ram)
  {
  }

  // ---- registering RAM ----

  /** Pages that were never registered are still reserved, so __free does not BUG. */
  lemma RegisterFindsReserved(s: Sys, s': Sys, k: nat, a: nat, b: nat)
    requires SysInv(s) && Register(s, s', k, a, b)
    ensures AllBits(s.nodes[k].bits, a, b, true)
  {
    var nd := s.nodes[k];
    assert NodeInv(nd, s.owner, s.ram);
    forall i | a <= i < b ensures nd.bits[i] {
      assert nd.min + i in Pages(nd.min + a, nd.min + b);
    }
  }

  lemma RegisterNode(nd: Node, owner: map<nat, nat>, ram: set<nat>, ram': set<nat>, a: nat, b: nat)
    requires NodeInv(nd, owner, ram) && a <= b <= |nd.bits| && ram' == ram + Pages(nd.min + a, nd.min + b)
    requires Pages(nd.min + a, nd.min + b) !! ram && forall c :: c in owner ==> PfnDown(c) in ram
    ensures NodeInv(Freed(nd, a, b), owner, ram')
  {
  }

  lemma RegisterHosts(s: Sys, s': Sys, k: nat, a: nat, b: nat)
    requires SysInv(s) && Register(s, s', k, a, b)
    ensures LayoutOk(s'.nodes, s'.ram)
  {
    hide NodeInv;
    forall p | p in s'.ram ensures Hosted(s.nodes, p) {
      assert p in s.ram || Holds(s.nodes[k], p);
    }
    LayoutKept(s.nodes, s'.nodes, s'.ram);
  }

  /** Registering RAM exposes nothing live. */
  lemma RegisterKeeps(s: Sys, s': Sys, k: nat, a: nat, b: nat)
    requires SysInv(s) && Register(s, s', k, a, b)
    ensures SysInv(s')
  {
    hide LayoutOk, NodeInv, Freed;
    RegisterHosts(s, s', k, a, b);
    forall m | 0 <= m < |s'.nodes| ensures NodeInv(s'.nodes[m], s'.owner, s'.ram) {
      assert NodeInv(s.nodes[m], s.owner, s.ram);
      if m == k {
        RegisterNode(s.nodes[k], s.owner, s.ram, s'.ram, a, b);
      } else {
        OtherNode(s.nodes[m], s.owner, s'.owner, s.ram, s'.ram);
      }
    }
  }

  // ---- freeing ----

  /** A live range has all its pages reserved, so __free does not BUG. */
  lemma FreeFindsReserved(s: Sys, addr: nat, size: nat, k: nat, i: nat)
    requires SysInv(s) && Bytes(addr, size) <= s.owner.Keys && k < |s.nodes| && i < |s.nodes[k].bits|
    requires PfnUp(addr) <= s.nodes[k].min + i < PfnDown(addr + size)
    ensures s.nodes[k].bits[i]
  {
    var nd, b := s.nodes[k], (s.nodes[k].min + i) * PAGE_SIZE;
    assert NodeInv(nd, s.owner, s.ram);
    assert b in Bytes(addr, size) && PfnDown(b) == nd.min + i && OnNode(nd, b);
  }

  lemma ClearedInRam(nd: Node, nd': Node, owner: map<nat, nat>, ram: set<nat>, addr: nat, size: nat, i: nat)
    requires NodeInv(nd, owner, ram) && Bytes(addr, size) <= owner.Keys
    requires PagesCleared(nd, nd', PfnUp(addr), PfnDown(addr + size)) && i < |nd.bits| && !nd'.bits[i]
    requires forall b :: b in owner ==> PfnDown(b) in ram
    ensures nd.min + i in ram
  {
    if nd.bits[i] {
      var b := (nd.min + i) * PAGE_SIZE;
      assert b in Bytes(addr, size) && PfnDown(b) == nd.min + i;
    }
  }

  /** The last page of a node is never freed whole: its tail was never handed out. */
  lemma LastPageStays(nd: Node, nd': Node, owner: map<nat, nat>, ram: set<nat>, addr: nat, size: nat)
    requires NodeInv(nd, owner, ram) && Bytes(addr, size) <= owner.Keys && nd.lastEnd % PAGE_SIZE != 0
    requires PagesCleared(nd, nd', PfnUp(addr), PfnDown(addr + size))
    ensures nd'.bits[PfnDown(nd.lastEnd)]
  {
    var p := nd.min + PfnDown(nd.lastEnd);
    var b := nd.min * PAGE_SIZE + nd.lastEnd;
    assert b !in owner && b !in Bytes(addr, size);
    assert !(PfnUp(addr) <= p < PfnDown(addr + size));
  }

  /** A page that still holds a live byte was not freed whole. */
  lemma StillReserved(nd: Node, nd': Node, owner: map<nat, nat>, ram: set<nat>, addr: nat, size: nat, b: nat)
    requires NodeInv(nd, owner, ram) && b in owner && b !in Bytes(addr, size) && OnNode(nd, b)
    requires PagesCleared(nd, nd', PfnUp(addr), PfnDown(addr + size))
    ensures nd'.bits[PfnDown(b) - nd.min]
  {
  }

  lemma TailStays(nd: Node, nd': Node, owner: map<nat, nat>, freed: set<nat>)
    requires TailFree(nd, owner) && nd'.min == nd.min && nd'.lastEnd == nd.lastEnd
    ensures TailFree(nd', owner - freed)
  {
  }

  lemma FreeKeepsNode(nd: Node, nd': Node, owner: map<nat, nat>, ram: set<nat>, addr: nat, size: nat)
    requires NodeInv(nd, owner, ram) && Bytes(addr, size) <= owner.Keys
    requires PagesCleared(nd, nd', PfnUp(addr), PfnDown(addr + size))
    requires forall b :: b in owner ==> PfnDown(b) in ram
    ensures NodeInv(nd', owner - Bytes(addr, size), ram)
  {
    hide TailFree, Bytes;
    forall i | 0 <= i < |nd'.bits| && !nd'.bits[i] ensures nd.min + i in ram {
      ClearedInRam(nd, nd', owner, ram, addr, size, i);
    }
    forall b | b in owner - Bytes(addr, size) && OnNode(nd', b) ensures nd'.bits[PfnDown(b) - nd.min] {
      StillReserved(nd, nd', owner, ram, addr, size, b);
    }
    if nd.lastEnd % PAGE_SIZE != 0 {
      LastPageStays(nd, nd', owner, ram, addr, size);
      TailStays(nd, nd', owner, Bytes(addr, size));
    }
  }

  lemma FreeKeeps(s: Sys, s': Sys, addr: nat, size: nat)
    requires SysInv(s) && Free(s, s', addr, size)
    ensures SysInv(s')
  {
    forall k | 0 <= k < |s'.nodes| ensures NodeInv(s'.nodes[k], s'.owner, s'.ram) {
      FreeKeepsNode(s.nodes[k], s'.nodes[k], s.owner, s.ram, addr, size);
    }
    LayoutKept(s.nodes, s'.nodes, s.ram);
  }

  /** mark_bootmem over a span of disjoint nodes is such a clearing. */
  lemma FreeRangeClears(vs: seq<Node>, i: nat, j: nat, p: nat, q: nat, k: nat)
    requires BootList.Spans(vs, i, j, p, q) && BootList.DisjointNodes(vs) && k < |vs|
    ensures PagesCleared(vs[k], BootList.FreedTo(vs, i, j + 1, p, q)[k], p, q)
  {
    var nd := BootList.FreedTo(vs, i, j + 1, p, q)[k];
    forall x | 0 <= x < |vs[k].bits| ensures nd.bits[x] == (vs[k].bits[x] && !(p <= vs[k].min + x < q)) {
      if !(i <= k <= j) && p <= vs[k].min + x < q {
        SpanAvoids(vs, i, j, p, q, k, j, vs[k].min + x);
      }
    }
  }

  /** Nodes outside the span share no page frame with it. */
  lemma SpanAvoids(vs: seq<Node>, i: nat, j: nat, p: nat, q: nat, k: nat, m: nat, x: nat)
    requires BootList.Spans(vs, i, j, p, q) && BootList.DisjointNodes(vs) && k < |vs| && !(i <= k <= j) && i <= m <= j
    requires p <= x < q && x < vs[m].low
    ensures !(vs[k].min <= x < vs[k].low)
  {
    assert vs[k].low <= vs[m].min || vs[m].low <= vs[k].min;
    if m > i {
      assert BootList.Adjoin(vs, m - 1);
      if x < vs[m - 1].low { SpanAvoids(vs, i, j, p, q, k, m - 1, x); }
    }
  }

  /** What mark_bootmem leaves of a free that reaches no BUG() is such a clearing on every node. */
  lemma MarkFreeClears(vs: seq<Node>, ws: seq<Node>, p: nat, q: nat, k: nat)
    requires BootList.DisjointNodes(vs) && BootList.Frees(vs, p, q) && k < |vs| && WellFormed(vs[k])
    requires forall i: nat, j: nat :: BootList.Clean(vs, i, j, p, q) ==> ws == BootList.FreedTo(vs, i, j + 1, p, q)
    requires p > q ==> BootList.OnlyHintsDropped(vs, ws)
    ensures |ws| == |vs| && PagesCleared(vs[k], ws[k], p, q)
  {
    if p <= q {
      var i: nat, j: nat :| BootList.Clean(vs, i, j, p, q);
      FreeRangeClears(vs, i, j, p, q, k);
    }
  }

  /** And what a reserve leaves that reaches neither EBUSY nor BUG(): every page of the range is set, and no other changes. */
  lemma ReserveSets(vs: seq<Node>, ws: seq<Node>, p: nat, q: nat, k: nat, x: nat)
    requires BootList.DisjointNodes(vs) && BootList.Covered(vs, p, q) && BootList.RangeReserved(vs, ws, p, q)
    requires k < |vs| && WellFormed(vs[k]) && x < |vs[k].bits|
    ensures |ws| == |vs| && ws[k] == vs[k].(bits := ws[k].bits) && |ws[k].bits| == |vs[k].bits|
    ensures ws[k].bits[x] <==> vs[k].bits[x] || p <= vs[k].min + x < q
  {
    var i: nat, j: nat :| BootList.Spans(vs, i, j, p, q);
    if !(i <= k <= j) && p <= vs[k].min + x < q {
      SpanAvoids(vs, i, j, p, q, k, j, vs[k].min + x);
    }
  }

  /** Index x of node k, one of the nodes i..j, is a reserved page of [p, q). */
  ghost predicate TakenAt(vs: seq<Node>, i: nat, j: nat, k: nat, x: nat, p: nat, q: nat) {
    i <= k <= j && k < |vs| && x < |vs[k].bits| && p <= vs[k].min + x < q && vs[k].bits[x]
  }

  lemma PartTaken(vs: seq<Node>, i: nat, j: nat, p: nat, q: nat)
    requires BootList.Reaches(vs, i, j, p, q)
    ensures !BootList.AllOn(vs, i, j + 1, p, q, false) <==> exists k: nat, x: nat :: TakenAt(vs, i, j, k, x, p, q)
  {
    if k: nat, x: nat :| TakenAt(vs, i, j, k, x, p, q) {
      assert !BootList.PartIs(vs[k], p, q, false);
    }
    if k: nat :| i <= k <= j && !BootList.PartIs(vs[k], p, q, false) {
      var x: nat :| BootList.LoIdx(vs[k], p) <= x < BootList.HiIdx(vs[k], q) && vs[k].bits[x];
      assert TakenAt(vs, i, j, k, x, p, q);
    }
  }

  /** A reserve finds a page taken exactly if a frame of the range, on a node it reaches, is reserved. */
  lemma TakenMeans(vs: seq<Node>, p: nat, q: nat)
    ensures BootList.Taken(vs, p, q) <==>
              exists i: nat, j: nat, k: nat, x: nat :: BootList.Reaches(vs, i, j, p, q) && TakenAt(vs, i, j, k, x, p, q)
  {
    hide BootList.Spans, BootList.AllOn, TakenAt;
    forall i: nat, j: nat | BootList.Reaches(vs, i, j, p, q)
      ensures !BootList.AllOn(vs, i, j + 1, p, q, false) <==> exists k: nat, x: nat :: TakenAt(vs, i, j, k, x, p, q)
    {
      PartTaken(vs, i, j, p, q);
    }
  }

  // ---- when a free finds its pages ----

  predicate Empty(nd: Node) { nd.min >= nd.low }

  /**
   * The condition on page frames: a free of whole pages must not pass an empty node in the list; one
   * without a whole page needs a node that begins at or before frame `q` and ends behind frame `p`.
   */
  ghost predicate FreeFinds(vs: seq<Node>, p: nat, q: nat) {
    if p < q then forall i, k, j :: (0 <= i < k < j < |vs| && Holds(vs[i], p) && Holds(vs[j], q - 1)) ==> !Empty(vs[k])
    else exists k :: 0 <= k < |vs| && vs[k].min <= q && p < vs[k].low
  }

  lemma OneHost(vs: seq<Node>, k: nat, l: nat, x: nat)
    requires BootList.DisjointNodes(vs) && k < |vs| && l < |vs| && Holds(vs[k], x) && Holds(vs[l], x)
    ensures k == l
  {
  }

  /** Later nodes with pages lie behind. */
  lemma Behind(vs: seq<Node>, k: nat, l: nat)
    requires BootList.DisjointNodes(vs) && Sorted(vs) && k < l < |vs| && !Empty(vs[k]) && !Empty(vs[l])
    ensures vs[k].low <= vs[l].min
  {
  }

  /** If every page up to the next node is hosted, consecutive nodes adjoin. */
  lemma NoGap(vs: seq<Node>, k: nat)
    requires BootList.DisjointNodes(vs) && Sorted(vs) && k + 1 < |vs| && !Empty(vs[k]) && !Empty(vs[k + 1])
    requires vs[k].low < vs[k + 1].min ==> Hosted(vs, vs[k].low)
    ensures BootList.Adjoin(vs, k)
  {
    Behind(vs, k, k + 1);
    if vs[k].low < vs[k + 1].min { GapUnhosted(vs, k); }
  }

  lemma GapUnhosted(vs: seq<Node>, k: nat)
    requires BootList.DisjointNodes(vs) && Sorted(vs) && k + 1 < |vs| && !Empty(vs[k]) && vs[k].low < vs[k + 1].min
    ensures !Hosted(vs, vs[k].low)
  {
    forall m | 0 <= m < |vs| ensures !Holds(vs[m], vs[k].low) {
      if m < k && !Empty(vs[m]) { Behind(vs, m, k); }
    }
  }

  lemma SpanOf(vs: seq<Node>, i: nat, j: nat, p: nat, q: nat)
    requires BootList.DisjointNodes(vs) && Sorted(vs) && (forall k :: 0 <= k < |vs| ==> WellFormed(vs[k]))
    requires p < q && i < |vs| && j < |vs| && Holds(vs[i], p) && Holds(vs[j], q - 1)
    requires forall k :: i < k < j ==> !Empty(vs[k])
    requires forall x :: p <= x < q ==> Hosted(vs, x)
    ensures BootList.Spans(vs, i, j, p, q)
  {
    if j < i { Behind(vs, j, i); }
    forall k | 0 <= k < i ensures !Holds(vs[k], p) {
      if Holds(vs[k], p) { OneHost(vs, k, i, p); }
    }
    forall k | i < k <= j ensures !Empty(vs[k]) && vs[k].min < q && p < vs[k].min { Behind(vs, i, k); }
    forall k | i <= k < j ensures vs[k].low < q && BootList.Adjoin(vs, k) {
      Behind(vs, k, j);
      NoGap(vs, k);
    }
  }

  lemma LivePagesHosted(s: Sys, addr: nat, size: nat, x: nat)
    requires SysInv(s) && Bytes(addr, size) <= s.owner.Keys && PfnUp(addr) <= x < PfnDown(addr + size)
    ensures Hosted(s.nodes, x)
  {
    hide NodeInv;
    var b := x * PAGE_SIZE;
    assert b in Bytes(addr, size) && PfnDown(b) == x;
  }

  lemma LivePagesReserved(s: Sys, addr: nat, size: nat, i: nat, j: nat)
    requires SysInv(s) && Bytes(addr, size) <= s.owner.Keys
    requires BootList.Spans(s.nodes, i, j, PfnUp(addr), PfnDown(addr + size))
    ensures BootList.AllOn(s.nodes, i, j + 1, PfnUp(addr), PfnDown(addr + size), true)
  {
    var p, q := PfnUp(addr), PfnDown(addr + size);
    forall m | i <= m <= j ensures BootList.PartIs(s.nodes[m], p, q, true) {
      var nd := s.nodes[m];
      forall x | BootList.LoIdx(nd, p) <= x < BootList.HiIdx(nd, q) ensures nd.bits[x] {
        FreeFindsReserved(s, addr, size, m, x);
      }
    }
  }

  /** free_bootmem of live bytes reaches no BUG() exactly if the condition on page frames holds. */
  lemma FreeExactly(s: Sys, addr: nat, size: nat)
    requires SysInv(s) && Bytes(addr, size) <= s.owner.Keys
    ensures BootList.Frees(s.nodes, PfnUp(addr), PfnDown(addr + size)) <==> FreeFinds(s.nodes, PfnUp(addr), PfnDown(addr + size))
  {
    var vs, p, q := s.nodes, PfnUp(addr), PfnDown(addr + size);
    if p < q {
      if BootList.Frees(vs, p, q) {
        var i: nat, j: nat :| BootList.Clean(vs, i, j, p, q);
        SpanPassesNoEmpty(vs, i, j, p, q);
      }
      if FreeFinds(vs, p, q) { LiveFreeFinds(s, addr, size); }
    } else {
      NoWholePage(vs, p, q);
    }
  }

  lemma SpanPassesNoEmpty(vs: seq<Node>, i: nat, j: nat, p: nat, q: nat)
    requires BootList.DisjointNodes(vs) && BootList.Spans(vs, i, j, p, q) && p < q
    ensures FreeFinds(vs, p, q)
  {
    forall i', k, j' | 0 <= i' < k < j' < |vs| && Holds(vs[i'], p) && Holds(vs[j'], q - 1) ensures !Empty(vs[k]) {
      OneHost(vs, i, i', p);
      OneHost(vs, j, j', q - 1);
    }
  }

  lemma LiveFreeFinds(s: Sys, addr: nat, size: nat)
    requires SysInv(s) && Bytes(addr, size) <= s.owner.Keys && PfnUp(addr) < PfnDown(addr + size)
    requires FreeFinds(s.nodes, PfnUp(addr), PfnDown(addr + size))
    ensures BootList.Frees(s.nodes, PfnUp(addr), PfnDown(addr + size))
  {
    var vs, p, q := s.nodes, PfnUp(addr), PfnDown(addr + size);
    assert forall k :: 0 <= k < |vs| ==> NodeInv(vs[k], s.owner, s.ram);
    forall x | p <= x < q ensures Hosted(vs, x) { LivePagesHosted(s, addr, size, x); }
    assert Hosted(vs, p) && Hosted(vs, q - 1);
    var i :| 0 <= i < |vs| && Holds(vs[i], p);
    var j :| 0 <= j < |vs| && Holds(vs[j], q - 1);
    SpanOf(vs, i, j, p, q);
    LivePagesReserved(s, addr, size, i, j);
    assert BootList.Clean(vs, i, j, p, q);
  }

  lemma NoWholePage(vs: seq<Node>, p: nat, q: nat)
    requires BootList.DisjointNodes(vs) && p >= q && forall k :: 0 <= k < |vs| ==> WellFormed(vs[k])
    ensures BootList.Frees(vs, p, q) <==> FreeFinds(vs, p, q)
  {
    if FreeFinds(vs, p, q) {
      var k :| 0 <= k < |vs| && vs[k].min <= q && p < vs[k].low;
      forall l | 0 <= l < k ensures !Holds(vs[l], p) {
        if Holds(vs[l], p) { OneHost(vs, k, l, p); }
      }
      assert BootList.Spans(vs, k, k, p, p);
      assert p == q ==> BootList.Clean(vs, k, k, p, q);
    }
  }

  /** Freeing a whole allocation, however much later, finds its pages. */
  lemma WholeAreaFreeable(s: Sys, s': Sys, at: nat, size: nat, align: nat, goal: nat, limit: nat, addr: nat, t: Sys)
    requires SysInv(s) && Alloc(s, s', at, size, align, goal, limit, addr)
    requires SysInv(t) && SameBounds(s.nodes, t.nodes) && Bytes(addr, size) <= t.owner.Keys
    ensures BootList.Frees(t.nodes, PfnUp(addr), PfnDown(addr + size))
  {
    AreaOnNode(s, s', at, size, align, goal, limit, addr);
    var vs, p, q := t.nodes, PfnUp(addr), PfnDown(addr + size);
    assert vs[at].min <= q && p < vs[at].low;
    forall i | 0 <= i < |vs| && Holds(vs[i], p) ensures i == at { OneHost(vs, at, i, p); }
    if p < q {
      forall j | 0 <= j < |vs| && Holds(vs[j], q - 1) ensures j == at { OneHost(vs, at, j, q - 1); }
    }
    FreeExactly(t, addr, size);
  }

  lemma AreaOnNode(s: Sys, s': Sys, at: nat, size: nat, align: nat, goal: nat, limit: nat, addr: nat)
    requires SysInv(s) && Alloc(s, s', at, size, align, goal, limit, addr)
    ensures var nd := s.nodes[at];
            nd.min <= PfnUp(addr) < nd.low && nd.min <= PfnDown(addr + size) <= nd.low
  {
    AllocFresh(s, s', at, size, align, goal, limit, addr);
    var nd := s.nodes[at];
    var sidx := Chosen(nd, size, align, goal, limit).value;
    hide PfnUp, PfnDown, StartOff;
    ChosenComplete(nd, size, align, goal, limit);
    StartOffBounds(nd, sidx, size, align);
    AreaFrames(nd.min, nd.low, nd.min + sidx, addr, size);
  }

  lemma AreaFrames(min: nat, low: nat, top: nat, addr: nat, size: nat)
    requires min * PAGE_SIZE <= addr <= top * PAGE_SIZE && top < low && addr + size <= low * PAGE_SIZE
    ensures min <= PfnUp(addr) < low && min <= PfnDown(addr + size) <= low
  {
  }

  // ---- runs ----

  lemma NextKeeps(s: Sys, s': Sys)
    requires SysInv(s) && Next(s, s')
    ensures SysInv(s')
  {
    if k: nat, a: nat, b: nat :| Register(s, s', k, a, b) {
      RegisterKeeps(s, s', k, a, b);
    } else if at: nat, size: nat, align: nat, goal: nat, limit: nat, addr: nat :| Alloc(s, s', at, size, align, goal, limit, addr) {
      AllocKeeps(s, s', at, size, align, goal, limit, addr);
    } else {
      var addr: nat, size: nat :| Free(s, s', addr, size);
      FreeKeeps(s, s', addr, size);
    }
  }

  ghost predicate Run(h: seq<Sys>) {
    && |h| > 0 && Init(h[0])
    && forall i :: 0 <= i < |h| - 1 ==> Next(h[i], h[i + 1])
  }

  lemma {:induction false} RunInv(h: seq<Sys>, n: nat)
    requires Run(h) && n < |h|
    ensures SysInv(h[n])
  {
    if n > 0 {
      RunInv(h, n - 1);
      assert Next(h[n - 1], h[n - 1 + 1]);
      NextKeeps(h[n - 1], h[n]);
    }
  }

  /** Live bytes inside the last page of the last node: the free starts behind every node and reaches BUG(). */
  lemma LastPageHitsBug(s: Sys, addr: nat, size: nat)
    requires SysInv(s) && Bytes(addr, size) <= s.owner.Keys && size > 0
    requires forall k :: 0 <= k < |s.nodes| ==> s.nodes[k].low <= PfnUp(addr)
    ensures !BootList.Frees(s.nodes, PfnUp(addr), PfnDown(addr + size))
  {
    hide NodeInv, Bytes;
    var vs, p, q := s.nodes, PfnUp(addr), PfnDown(addr + size);
    if p < q {
      LivePagesHosted(s, addr, size, p);
    } else {
      assert !FreeFinds(vs, p, q);
      FreeExactly(s, addr, size);
    }
  }

  /** A node of one clear page hands out its first bytes. */
  lemma FirstBytes(nd: Node, size: nat, align: nat, zero: nat)
    requires 0 < size <= PAGE_SIZE && align == 1 && zero == 0
    requires WellFormed(nd) && nd.min == zero && nd.low == 1 && !nd.bits[zero] && nd.hint == zero && nd.lastEnd == zero
    ensures IsPow2(align) && Chosen(nd, size, align, zero, zero) == Some(zero) && StartOff(nd, zero, align) == zero
  {
    assert StepOf(align) == 1 && PfnUp(size) == 1 && MidIdx(nd, zero) == 1;
    assert Fits(nd, zero, StepOf(align), PfnUp(size), MidIdx(nd, zero));
    StartIdxLeast(nd, align, zero, zero);
    ChosenComplete(nd, size, align, zero, zero);
  }

  /** One node of one page, reserved at first. */
  predicate OnePage(s: Sys, reserved: bool, zero: nat) {
    && |s.nodes| == 1 && s.nodes[0] == Node(zero, 1, [reserved], zero, zero) && s.owner == map[] && s.ids == zero
    && zero == 0
  }

  lemma OnePageRegistered(s0: Sys, s1: Sys, zero: nat)
    requires OnePage(s0, true, zero) && s0.ram == {} && OnePage(s1, false, zero) && s1.ram == Pages(zero, zero + 1)
    ensures Init(s0) && Next(s0, s1)
  {
    hide Bytes;
    assert s1.nodes[0].bits == Freed(s0.nodes[0], zero, 1).bits;
    assert s1.nodes == s0.nodes[0 := Freed(s0.nodes[0], zero, 1)];
    assert s0.ram + Pages(zero, zero + 1) == s1.ram;
    assert Register(s0, s1, 0, zero, 1);
  }

  lemma FirstBytesAllocated(s1: Sys, s2: Sys, size: nat, align: nat, zero: nat)
    requires OnePage(s1, false, zero) && 0 < size <= PAGE_SIZE && align == 1 && WellFormed(s1.nodes[0])
    requires s2 == Sys([Allocated(s1.nodes[0], zero, size, align)], map x | x in Bytes(zero, size) :: zero, s1.ram, zero + 1)
    ensures Next(s1, s2)
  {
    hide Bytes, Chosen, StartOff, Allocated;
    var nd := s1.nodes[0];
    FirstBytes(nd, size, align, zero);
    assert s2.nodes == s1.nodes[0 := Allocated(nd, zero, size, align)];
    assert s2.owner == s1.owner + (map x | x in Bytes(zero, size) :: s1.ids);
    assert Alloc(s1, s2, 0, size, align, zero, zero, zero);
  }

  /** Such a state is reachable: two bytes are allocated on the only page, and the second one is to be freed. */
  lemma FreeHitsBug(size: nat, align: nat, zero: nat) returns (h: seq<Sys>, addr: nat)
    requires size == 2 && align == 1 && zero == 0
    ensures Run(h) && |h| == 3 && Bytes(addr, 1) <= h[2].owner.Keys
    ensures !BootList.Frees(h[2].nodes, PfnUp(addr), PfnDown(addr + 1))
  {
    hide Next, Bytes, Allocated, Init;
    addr := zero + 1;
    var s0 := Sys([Node(zero, 1, [true], zero, zero)], map[], {}, zero);
    var s1 := Sys([Node(zero, 1, [false], zero, zero)], map[], Pages(zero, zero + 1), zero);
    var s2 := Sys([Allocated(s1.nodes[0], zero, size, align)], map x | x in Bytes(zero, size) :: zero, s1.ram, zero + 1);
    OnePageRegistered(s0, s1, zero);
    FirstBytesAllocated(s1, s2, size, align, zero);
    h := [s0, s1, s2];
    assert Run(h);
    RunInv(h, 2);
    KeepsLow(s1.nodes[0], zero, size, align);
    LastPageHitsBug(s2, addr, 1);
  }

  lemma KeepsLow(nd: Node, sidx: nat, size: nat, align: nat)
    requires WellFormed(nd) && align > 0
    ensures Allocated(nd, sidx, size, align).low == nd.low
  {
  }

  /**
   * In every run, whatever was allocated and freed before: a new area shares no byte with a live one,
   * is aligned, and lies on its node, below the limit if that is at least a page, and not below a goal that
   * the node and the limit can meet.  A node that ends below the goal is never taken from the list.
   */
  lemma AllocInRun(h: seq<Sys>, n: nat, s': Sys, at: nat, size: nat, align: nat, goal: nat, limit: nat, addr: nat)
    requires Run(h) && n < |h| && Alloc(h[n], s', at, size, align, goal, limit, addr)
    ensures forall b :: b in h[n].owner ==> b in s'.owner && s'.owner[b] == h[n].owner[b] && !(addr <= b < addr + size)
    ensures addr % align == 0
    ensures h[n].nodes[at].min * PAGE_SIZE <= addr && addr + size <= h[n].nodes[at].low * PAGE_SIZE
    ensures limit >= PAGE_SIZE ==> addr + size <= limit
    ensures limit > 0 && BootList.AllocatedAt(h[n].nodes, s'.nodes, at, size, align, goal, limit, addr) ==> addr + size <= limit
    ensures GoalMet(h[n].nodes[at], goal, limit, addr)
    ensures goal > 0 && BootList.AllocatedAt(h[n].nodes, s'.nodes, at, size, align, goal, limit, addr) ==> PfnDown(goal) < h[n].nodes[at].low
  {
    RunInv(h, n);
    AllocFresh(h[n], s', at, size, align, goal, limit, addr);
    assert forall b :: b in h[n].owner ==> b !in Bytes(addr, size);
  }

  /** The area handed out for this request, if any, ends at or below the limit. */
  ghost predicate EndsBelow(nd: Node, size: nat, align: nat, goal: nat, limit: nat)
    requires WellFormed(nd) && align > 0
  {
    var c := Chosen(nd, size, align, goal, limit);
    c.Some? ==> nd.min * PAGE_SIZE + StartOff(nd, c.value, align) + size <= limit
  }

  ghost predicate LimitHonoured(limit: nat) {
    forall nd: Node, size: nat, align: nat, goal: nat ::
      (WellFormed(nd) && size > 0 && IsPow2(align) && goal + size <= limit) ==> EndsBelow(nd, size, align, goal, limit)
  }

  lemma LimitOfAPage(nd: Node, size: nat, align: nat, goal: nat, limit: nat)
    requires WellFormed(nd) && size > 0 && IsPow2(align) && limit >= PAGE_SIZE
    ensures EndsBelow(nd, size, align, goal, limit)
  {
    var c := Chosen(nd, size, align, goal, limit);
    if c.Some? {
      ChosenComplete(nd, size, align, goal, limit);
      StartOffBounds(nd, c.value, size, align);
    }
  }

  /**
   * The limit is honoured for every node and request exactly when it is 0 or at least a page: a smaller
   * one rounds down to page frame 0, which alloc_bootmem_bdata takes to mean no limit.
   */
  lemma LimitExactly(limit: nat)
    ensures LimitHonoured(limit) <==> limit == 0 || limit >= PAGE_SIZE
  {
    if limit >= PAGE_SIZE {
      forall nd: Node, size: nat, align: nat, goal: nat | WellFormed(nd) && size > 0 && IsPow2(align)
        ensures EndsBelow(nd, size, align, goal, limit)
      {
        LimitOfAPage(nd, size, align, goal, limit);
      }
    } else if limit > 0 {
      var nd := Node(1, 2, [false], 0, 0);
      LimitIgnored(nd, limit, 1);
    }
  }

  /** A node of one free page at frame 1 serves a one-byte request although the limit is inside page 0. */
  lemma LimitIgnored(nd: Node, limit: nat, align: nat)
    requires 0 < limit < PAGE_SIZE && nd == Node(1, 2, [false], 0, 0) && align == 1
    ensures IsPow2(align) && !EndsBelow(nd, 1, align, 0, limit)
  {
    var step := StepOf(align);
    assert step == 1 && PfnUp(1) == 1 && MidIdx(nd, limit) == 1;
    assert Fits(nd, 0, step, PfnUp(1), MidIdx(nd, limit));
    StartIdxLeast(nd, align, limit, 0);
    ChosenComplete(nd, 1, align, 0, limit);
    assert Chosen(nd, 1, align, 0, limit) == Some(0);
  }
}
