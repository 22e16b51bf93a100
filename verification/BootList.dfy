/**
 * The list of nodes of the boot memory allocator (bootmem.c): ordered insertion, marking a range
 * that spans nodes with rollback, and allocation from the first node that has room.
 */
module BootList {
  import opened Common
  import opened BootModel
  import opened BootNode

  // ---- a list of nodes as values ----

  /** The part of [start, end) that lies on a node, as indices into its bitmap. */
  function LoIdx(nd: Node, start: nat): nat { Max(start, nd.min) - nd.min }
  function HiIdx(nd: Node, end: nat): int { Min(end, nd.low) - nd.min }

  /** Nodes i..j are consecutive in the list, adjoin each other and cover [start, end). */
  ghost predicate Spans(vs: seq<Node>, i: nat, j: nat, start: nat, end: nat) {
    && (forall k :: 0 <= k < |vs| ==> WellFormed(vs[k]))
    && i <= j < |vs| && start <= end && end <= vs[j].low
    && vs[i].min <= start < vs[i].low
    && (forall k :: 0 <= k < i ==> !(vs[k].min <= start < vs[k].low))
    && (forall k :: i < k <= j ==> vs[k].min < vs[k].low && vs[k].min < end && start < vs[k].min)
    && (forall k :: i <= k < j ==> vs[k].low < end)
    && (forall k :: i <= k < j ==> Adjoin(vs, k))
  }

  predicate Adjoin(vs: seq<Node>, k: nat)
    requires k + 1 < |vs|
  {
    vs[k].low == vs[k + 1].min
  }

  /** Every page of [start, end) that lies on the node has its bit equal to `v`. */
  ghost predicate PartIs(nd: Node, start: nat, end: nat, v: bool) {
    WellFormed(nd) && nd.min <= end && AllBits(nd.bits, LoIdx(nd, start), HiIdx(nd, end), v)
  }

  ghost predicate AllOn(vs: seq<Node>, i: nat, k: nat, start: nat, end: nat, v: bool)
    requires k <= |vs|
  {
    forall m :: i <= m < k ==> PartIs(vs[m], start, end, v)
  }

  function FreedNode(nd: Node, start: nat, end: nat): Node
    requires WellFormed(nd)
  {
    if nd.min <= end then Freed(nd, LoIdx(nd, start), HiIdx(nd, end)) else nd
  }

  function ReservedNode(nd: Node, start: nat, end: nat): Node
    requires WellFormed(nd)
  {
    if nd.min <= end then nd.(bits := SetBits(nd.bits, LoIdx(nd, start), HiIdx(nd, end), true)) else nd
  }

  /** Nodes i..k-1 freed, respectively reserved, over their part of [start, end). */
  function FreedTo(vs: seq<Node>, i: nat, k: nat, start: nat, end: nat): (r: seq<Node>)
    requires forall m :: 0 <= m < |vs| ==> WellFormed(vs[m])
    ensures |r| == |vs| && forall m :: 0 <= m < |vs| ==> r[m] == if i <= m < k then FreedNode(vs[m], start, end) else vs[m]
  {
    seq(|vs|, m requires 0 <= m < |vs| => if i <= m < k then FreedNode(vs[m], start, end) else vs[m])
  }

  function ReservedTo(vs: seq<Node>, i: nat, k: nat, start: nat, end: nat): (r: seq<Node>)
    requires forall m :: 0 <= m < |vs| ==> WellFormed(vs[m])
    ensures |r| == |vs| && forall m :: 0 <= m < |vs| ==> r[m] == if i <= m < k then ReservedNode(vs[m], start, end) else vs[m]
  {
    seq(|vs|, m requires 0 <= m < |vs| => if i <= m < k then ReservedNode(vs[m], start, end) else vs[m])
  }

  /** Same bitmaps and everything else, except that a hint may have dropped. */
  ghost predicate OnlyHintsDropped(vs: seq<Node>, ws: seq<Node>) {
    |vs| == |ws| && forall k :: 0 <= k < |vs| ==> ws[k] == vs[k].(hint := ws[k].hint) && ws[k].hint <= vs[k].hint
  }

  // ---- the nodes themselves ----

  ghost predicate Separate(ns: seq<BootmemNode>) {
    && (forall k :: 0 <= k < |ns| ==> ns[k].Valid())
    && forall k, l :: 0 <= k < l < |ns| ==> ns[k] != ns[l] && ns[k].bootmap != ns[l].bootmap
  }

  ghost function Nodes(ns: seq<BootmemNode>): set<object> { set n | n in ns }
  ghost function Maps(ns: seq<BootmemNode>): set<object> { set n | n in ns :: n.bootmap }

  ghost function Views(ns: seq<BootmemNode>): (vs: seq<Node>)
    reads Nodes(ns), Maps(ns)
    ensures |vs| == |ns| && forall k :: 0 <= k < |ns| ==> vs[k] == ns[k].View()
  {
    seq(|ns|, k requires 0 <= k < |ns| reads Nodes(ns), Maps(ns) => ns[k].View())
  }

  ghost predicate SortedByMin(ns: seq<BootmemNode>) {
    forall k, l :: 0 <= k < l < |ns| ==> ns[k].min <= ns[l].min
  }

  /** link_bootmem: insert before the first node that starts higher. */
  method LinkBootmem(list: seq<BootmemNode>, bdata: BootmemNode) returns (r: seq<BootmemNode>)
    requires SortedByMin(list)
    ensures SortedByMin(r)
    ensures exists k :: 0 <= k <= |list| && r == list[..k] + [bdata] + list[k..]
  {
    var k := 0;
    while k < |list| && !(bdata.min < list[k].min)
      invariant 0 <= k <= |list|
      invariant forall m :: 0 <= m < k ==> list[m].min <= bdata.min
    {
      k := k + 1;
    }
    r := list[..k] + [bdata] + list[k..];
  }

  method FreeOn(ns: seq<BootmemNode>, k: nat, sidx: nat, eidx: nat) returns (bug: bool)
    requires Separate(ns) && k < |ns| && eidx <= ns[k].bootmap.Length
    modifies ns[k], ns[k].bootmap
    ensures bug <==> !AllBits(old(Views(ns)[k]).bits, sidx, eidx, true)
    ensures !bug ==> Views(ns) == old(Views(ns))[k := Freed(old(Views(ns)[k]), sidx, eidx)]
  {
    bug := ns[k].Free(sidx, eidx);
  }

  method ReserveOn(ns: seq<BootmemNode>, k: nat, sidx: nat, eidx: nat, exclusive: bool) returns (busy: bool)
    requires Separate(ns) && k < |ns| && eidx <= ns[k].bootmap.Length
    modifies ns[k], ns[k].bootmap
    ensures busy <==> exclusive && !AllBits(old(Views(ns)[k]).bits, sidx, eidx, false)
    ensures !busy ==> Views(ns) == old(Views(ns))[k := old(Views(ns)[k]).(bits := SetBits(old(Views(ns)[k]).bits, sidx, eidx, true))]
    ensures busy ==> OnlyHintsDropped(old(Views(ns)), Views(ns))
  {
    busy := ns[k].Reserve(sidx, eidx, exclusive);
  }

  // ---- how far the marking loop gets ----

  ghost predicate DisjointNodes(vs: seq<Node>) {
    forall k, l :: 0 <= k < l < |vs| ==> vs[k].low <= vs[l].min || vs[l].low <= vs[k].min
  }

  /** Adjoining nodes cover [start, end), beginning with the first that holds `start`. */
  ghost predicate Covered(vs: seq<Node>, start: nat, end: nat) {
    exists i: nat, j: nat :: Spans(vs, i, j, start, end)
  }

  ghost predicate NotYet(vs: seq<Node>, k: nat, start: nat)
    requires k <= |vs|
  {
    forall m :: 0 <= m < k ==> !(vs[m].min <= start < vs[m].low)
  }

  /** Nodes i..k-1 cover [start, pos), and the range goes on. */
  ghost predicate Passed(vs: seq<Node>, i: nat, k: nat, start: nat, end: nat, pos: nat) {
    0 < k <= |vs| && Spans(vs, i, k - 1, start, pos) && start < pos == vs[k - 1].low < end
  }

  /** Where the marking loop stands before it looks at node k. */
  ghost predicate Walking(vs: seq<Node>, i: nat, k: nat, start: nat, end: nat, pos: nat) {
    && k <= |vs| && (forall m :: 0 <= m < |vs| ==> WellFormed(vs[m]))
    && if pos == start then NotYet(vs, k, start) else Passed(vs, i, k, start, end, pos)
  }

  predicate AtCursor(vs: seq<Node>, k: nat, pos: nat) { k < |vs| && vs[k].min <= pos < vs[k].low }

  /** The node at which the span begins, once node k is reached with cursor `pos`. */
  function FirstOf(i: nat, k: nat, start: nat, pos: nat): nat { if pos == start then k else i }

  lemma LowsRise(vs: seq<Node>, i: nat, j: nat, start: nat, end: nat, m: nat, l: nat)
    requires Spans(vs, i, j, start, end) && i <= m <= l <= j
    ensures vs[m].low <= vs[l].low && (m < l ==> vs[m].low < vs[l].low)
  {
    if m < l {
      LowsRise(vs, i, j, start, end, m, l - 1);
      assert Adjoin(vs, l - 1);
    }
  }

  /** Every span from `start` that goes on past the cursor begins at the same node and has node k. */
  lemma SpanGoesOn(vs: seq<Node>, i: nat, k: nat, start: nat, end: nat, pos: nat, i': nat, j': nat, e: nat)
    requires Passed(vs, i, k, start, end, pos) && Spans(vs, i', j', start, e) && pos < e
    ensures i == i' && k <= j' && Adjoin(vs, k - 1) && AtCursor(vs, k, pos)
  {
    if j' < k {
      LowsRise(vs, i, k - 1, start, pos, j', k - 1);
    } else {
      assert Adjoin(vs, k - 1);
    }
  }

  /** Disjoint nodes that meet at a frame adjoin there. */
  lemma MeetAdjoin(vs: seq<Node>, k: nat)
    requires DisjointNodes(vs) && 0 < k < |vs| && vs[k - 1].min < vs[k - 1].low
    requires vs[k].min <= vs[k - 1].low < vs[k].low
    ensures Adjoin(vs, k - 1)
  {
    var a, b := vs[k - 1], vs[k];
    assert a.low <= b.min || b.low <= a.min;
  }

  /** The span grows by node k up to `end` or the end of the node. */
  lemma SpanGrows(vs: seq<Node>, i: nat, k: nat, start: nat, end: nat, pos: nat)
    requires Passed(vs, i, k, start, end, pos) && k < |vs| && Adjoin(vs, k - 1) && pos < vs[k].low
    ensures Spans(vs, i, k, start, Min(vs[k].low, end)) && LoIdx(vs[k], start) == 0 && vs[k].min == pos
  {
    forall m | i <= m < k ensures vs[m].low <= pos { LowsRise(vs, i, k - 1, start, pos, m, k - 1); }
    forall m | i <= m < k ensures Adjoin(vs, m) { if m < k - 1 { assert Adjoin(vs, m); } }
  }

  /** Every span of the range reaches node k, if the loop got there and node k holds the cursor. */
  lemma SpanReaches(vs: seq<Node>, i: nat, k: nat, start: nat, end: nat, pos: nat, i': nat, j': nat)
    requires Walking(vs, i, k, start, end, pos) && AtCursor(vs, k, pos) && Spans(vs, i', j', start, end)
    ensures i' == FirstOf(i, k, start, pos) && k <= j'
  {
    if pos != start { SpanGoesOn(vs, i, k, start, end, pos, i', j', end); }
  }

  /** No span exists if the loop has moved on and node k does not hold the cursor, or there is no node k. */
  lemma SpanBreaks(vs: seq<Node>, i: nat, k: nat, start: nat, end: nat, pos: nat)
    requires Walking(vs, i, k, start, end, pos) && (k == |vs| || (pos != start && !AtCursor(vs, k, pos)))
    ensures !Covered(vs, start, end)
    ensures pos == start ==> !Covered(vs, start, start)
  {
    forall i': nat, j': nat ensures !Spans(vs, i', j', start, end) {
      if Spans(vs, i', j', start, end) && pos != start { SpanGoesOn(vs, i, k, start, end, pos, i', j', end); }
    }
  }

  /** Node k holds the cursor: the span now reaches to its end or to `end`. */
  lemma SpanAt(vs: seq<Node>, i: nat, k: nat, start: nat, end: nat, pos: nat)
    requires DisjointNodes(vs) || Covered(vs, start, end)
    requires Walking(vs, i, k, start, end, pos) && AtCursor(vs, k, pos) && start <= end
    ensures Spans(vs, FirstOf(i, k, start, pos), k, start, Min(vs[k].low, end))
    ensures vs[k].min <= end && pos <= end && pos - vs[k].min == LoIdx(vs[k], start)
  {
    if pos != start {
      if DisjointNodes(vs) {
        MeetAdjoin(vs, k);
      } else {
        var i': nat, j': nat :| Spans(vs, i', j', start, end);
        SpanGoesOn(vs, i, k, start, end, pos, i', j', end);
      }
      SpanGrows(vs, i, k, start, end, pos);
    }
  }

  /** Node k is done to its end and the range goes on. */
  lemma WalkOn(vs: seq<Node>, i: nat, k: nat, start: nat, end: nat, pos: nat)
    requires Walking(vs, i, k, start, end, pos) && AtCursor(vs, k, pos) && vs[k].low < end && start <= end
    requires Spans(vs, FirstOf(i, k, start, pos), k, start, Min(vs[k].low, end))
    ensures Passed(vs, FirstOf(i, k, start, pos), k + 1, start, end, vs[k].low) && vs[k].low != start
  {
  }

  // ---- freeing a range ----

  /** [start, end) is covered from node i to node j, and all of it is reserved. */
  ghost predicate Clean(vs: seq<Node>, i: nat, j: nat, start: nat, end: nat) {
    Spans(vs, i, j, start, end) && AllOn(vs, i, j + 1, start, end, true)
  }

  /**
   * When freeing [start, end) reaches no BUG().  A free inside one page has start > end: nothing is
   * cleared, but a node must hold `start`, and `end` must not lie before that node.
   */
  ghost predicate Frees(vs: seq<Node>, start: nat, end: nat) {
    if start <= end then exists i: nat, j: nat :: Clean(vs, i, j, start, end)
    else exists i: nat :: Spans(vs, i, i, start, start) && vs[i].min <= end
  }

  /** The nodes the loop has passed were reserved, and are freed in `ws`. */
  ghost predicate Freeing(vs: seq<Node>, ws: seq<Node>, i: nat, k: nat, start: nat, end: nat, pos: nat) {
    && Walking(vs, i, k, start, end, pos)
    && if pos == start then ws == vs else AllOn(vs, i, k, start, end, true) && ws == FreedTo(vs, i, k, start, end)
  }

  lemma FreesCovers(vs: seq<Node>, start: nat, end: nat)
    requires Frees(vs, start, end)
    ensures if start <= end then Covered(vs, start, end) else Covered(vs, start, start)
  {
    if start <= end {
      var i: nat, j: nat :| Clean(vs, i, j, start, end);
      assert Spans(vs, i, j, start, end);
    }
  }

  /** The loop cannot go on, so it does not free. */
  lemma FreeBreaks(vs: seq<Node>, ws: seq<Node>, i: nat, k: nat, start: nat, end: nat, pos: nat)
    requires Freeing(vs, ws, i, k, start, end, pos) && (k == |vs| || (pos != start && !AtCursor(vs, k, pos)))
    ensures !Frees(vs, start, end)
  {
    SpanBreaks(vs, i, k, start, end, pos);
    if Frees(vs, start, end) { FreesCovers(vs, start, end); }
  }

  /** A page of the range on node k is not reserved. */
  lemma NotClean(vs: seq<Node>, i: nat, k: nat, start: nat, end: nat, pos: nat)
    requires Walking(vs, i, k, start, end, pos) && AtCursor(vs, k, pos) && start <= end
    requires !PartIs(vs[k], start, end, true)
    ensures !Frees(vs, start, end)
  {
    forall i': nat, j': nat ensures !Clean(vs, i', j', start, end) {
      if Spans(vs, i', j', start, end) { SpanReaches(vs, i, k, start, end, pos, i', j'); }
    }
  }

  /** Where node k ends the range, this is the span. */
  lemma FreeEnds(vs: seq<Node>, ws: seq<Node>, i: nat, k: nat, start: nat, end: nat, pos: nat)
    requires Freeing(vs, ws, i, k, start, end, pos) && AtCursor(vs, k, pos) && start <= end
    requires Spans(vs, FirstOf(i, k, start, pos), k, start, end) && PartIs(vs[k], start, end, true)
    ensures Frees(vs, start, end)
    ensures forall i': nat, j': nat :: Clean(vs, i', j', start, end) ==>
              |ws| == |vs| && ws[k := FreedNode(vs[k], start, end)] == FreedTo(vs, i', j' + 1, start, end)
  {
    var f := FirstOf(i, k, start, pos);
    assert Clean(vs, f, k, start, end);
    forall i': nat, j': nat | Clean(vs, i', j', start, end) ensures i' == f && j' == k {
      SpanReaches(vs, i, k, start, end, pos, i', j');
    }
  }

  lemma FreesOn(vs: seq<Node>, ws: seq<Node>, i: nat, k: nat, start: nat, end: nat, pos: nat)
    requires Freeing(vs, ws, i, k, start, end, pos) && AtCursor(vs, k, pos) && vs[k].low < end && start <= end
    requires Spans(vs, FirstOf(i, k, start, pos), k, start, Min(vs[k].low, end)) && PartIs(vs[k], start, end, true)
    ensures |ws| == |vs|
    ensures Freeing(vs, ws[k := FreedNode(vs[k], start, end)], FirstOf(i, k, start, pos), k + 1, start, end, vs[k].low)
  {
    WalkOn(vs, i, k, start, end, pos);
    hide Spans;
    var f := FirstOf(i, k, start, pos);
    assert ws[k := FreedNode(vs[k], start, end)] == FreedTo(vs, f, k + 1, start, end);
  }

  /** A free inside one page: the node that holds `start` decides. */
  lemma InsidePage(vs: seq<Node>, ws: seq<Node>, i: nat, k: nat, start: nat, end: nat, pos: nat)
    requires Freeing(vs, ws, i, k, start, end, pos) && AtCursor(vs, k, pos) && start > end
    ensures pos == start && ws == vs && (Frees(vs, start, end) <==> vs[k].min <= end)
    ensures forall i': nat, j': nat :: !Clean(vs, i', j', start, end)
  {
    assert Spans(vs, k, k, start, start);
  }

  lemma NoneFreed(vs: seq<Node>, k: nat, a: nat, b: nat)
    requires k < |vs| && WellFormed(vs[k]) && b <= a && b <= |vs[k].bits|
    ensures OnlyHintsDropped(vs, vs[k := Freed(vs[k], a, b)])
  {
  }

  lemma FreeShape(vs: seq<Node>, ws: seq<Node>, i: nat, k: nat, start: nat, end: nat, pos: nat)
    requires Freeing(vs, ws, i, k, start, end, pos)
    ensures Walking(vs, i, k, start, end, pos) && |ws| == |vs| && (k < |vs| ==> ws[k] == vs[k])
    ensures k < |vs| && pos == start && !AtCursor(vs, k, pos) ==> Freeing(vs, ws, k, k + 1, start, end, pos)
  {
  }

  datatype Turn = GoOn | Return | Busy | Bug

  /** One turn of the marking loop with reserve == 0. */
  method FreeVisit(ns: seq<BootmemNode>, start: nat, end: nat, k: nat, pos: nat, ghost vs: seq<Node>, ghost i: nat)
    returns (t: Turn, next: nat)
    requires Separate(ns) && k < |ns| && |vs| == |ns| && (DisjointNodes(vs) || Frees(vs, start, end))
    requires Freeing(vs, Views(ns), i, k, start, end, pos)
    modifies Nodes(ns), Maps(ns)
    ensures t.GoOn? ==> Freeing(vs, Views(ns), FirstOf(i, k, start, pos), k + 1, start, end, next)
    ensures !t.Busy? && (t.Bug? ==> !Frees(vs, start, end))
    ensures t.Return? ==> Frees(vs, start, end) && (start > end ==> OnlyHintsDropped(vs, Views(ns)))
    ensures t.Return? ==> forall i': nat, j': nat :: Clean(vs, i', j', start, end) ==> Views(ns) == FreedTo(vs, i', j' + 1, start, end)
  {
    hide Clean, Spans, Frees, Freeing, Walking, Covered, FreedTo, DisjointNodes, OnlyHintsDropped, Freed;
    var n := ns[k];
    ghost var ws := Views(ns);
    FreeShape(vs, ws, i, k, start, end, pos);
    if pos < n.min || pos >= n.low {
      if pos != start {
        FreeBreaks(vs, ws, i, k, start, end, pos);
        return Bug, pos;
      }
      return GoOn, pos;
    }
    if start <= end {
      if Frees(vs, start, end) { FreesCovers(vs, start, end); }
      SpanAt(vs, i, k, start, end, pos);
    } else {
      InsidePage(vs, ws, i, k, start, end, pos);
    }
    var max := Min(n.low, end);
    if max < n.min {
      // end - node_min_pfn wraps around: __free runs on to a clear bit or past the map
      return Bug, pos;
    }
    var bug := FreeOn(ns, k, pos - n.min, max - n.min);
    if bug {
      NotClean(vs, i, k, start, end, pos);
      return Bug, pos;
    }
    if max == end {
      if start <= end {
        FreeEnds(vs, ws, i, k, start, end, pos);
      } else {
        NoneFreed(vs, k, pos - n.min, max - n.min);
      }
      return Return, pos;
    }
    FreesOn(vs, ws, i, k, start, end, pos);
    return GoOn, n.low;
  }

  /**
   * mark_bootmem with reserve == 0 (free_bootmem, and the rollback below): a BUG() is reached unless
   * the range is covered by adjoining nodes and reserved, and otherwise exactly the range is cleared.
   */
  method MarkFree(ns: seq<BootmemNode>, start: nat, end: nat) returns (bug: bool)
    requires Separate(ns) && (DisjointNodes(Views(ns)) || Frees(Views(ns), start, end))
    modifies Nodes(ns), Maps(ns)
    ensures bug <==> !Frees(old(Views(ns)), start, end)
    ensures forall i: nat, j: nat :: Clean(old(Views(ns)), i, j, start, end) ==> Views(ns) == FreedTo(old(Views(ns)), i, j + 1, start, end)
    ensures !bug && start > end ==> OnlyHintsDropped(old(Views(ns)), Views(ns))
  {
    ghost var vs, i := Views(ns), 0;
    var pos: nat, k: nat := start, 0;
    assert Freeing(vs, vs, i, k, start, end, pos);
    hide Freeing, Walking, Spans, FreedTo, OnlyHintsDropped, DisjointNodes, Separate, Nodes, Maps, FirstOf;
    while k < |ns|
      invariant k <= |ns| && Freeing(vs, Views(ns), i, k, start, end, pos)
    {
      var t, next := FreeVisit(ns, start, end, k, pos, vs, i);
      if t.Bug? {
        NothingClean(vs, start, end);
        return true;
      }
      if t.Return? { return false; }
      i := FirstOf(i, k, start, pos);
      pos, k := next, k + 1;
    }
    FreeBreaks(vs, Views(ns), i, k, start, end, pos);
    NothingClean(vs, start, end);
    return true;
  }

  lemma NothingClean(vs: seq<Node>, start: nat, end: nat)
    requires !Frees(vs, start, end)
    ensures forall i: nat, j: nat :: !Clean(vs, i, j, start, end)
  {
    forall i: nat, j: nat ensures !Clean(vs, i, j, start, end) { assert start <= end ==> !Clean(vs, i, j, start, end); }
  }

  // ---- reserving a range ----

  /** Nodes i..j adjoin and cover the range as far as node j goes. */
  ghost predicate Reaches(vs: seq<Node>, i: nat, j: nat, start: nat, end: nat) {
    j < |vs| && Spans(vs, i, j, start, Min(vs[j].low, end))
  }

  /** Some page of the range that adjoining nodes lead to from `start` is reserved. */
  ghost predicate Taken(vs: seq<Node>, start: nat, end: nat) {
    exists i: nat, j: nat :: Reaches(vs, i, j, start, end) && !AllOn(vs, i, j + 1, start, end, false)
  }

  /** All of the range is reserved in `ws`, and nothing else has changed. */
  ghost predicate RangeReserved(vs: seq<Node>, ws: seq<Node>, start: nat, end: nat) {
    forall i: nat, j: nat :: Spans(vs, i, j, start, end) ==> ws == ReservedTo(vs, i, j + 1, start, end)
  }

  /** The nodes the loop has passed are reserved in `ws` and, if exclusive, were all clear. */
  ghost predicate Reserving(vs: seq<Node>, ws: seq<Node>, i: nat, k: nat, start: nat, end: nat, pos: nat, exclusive: bool) {
    && Walking(vs, i, k, start, end, pos)
    && if pos == start then ws == vs
       else ws == ReservedTo(vs, i, k, start, end) && (exclusive ==> AllOn(vs, i, k, start, end, false))
  }

  /** What is reached from `start` begins where the loop began, and goes past node k - 1 only through node k. */
  lemma ReachedSoFar(vs: seq<Node>, i: nat, k: nat, start: nat, end: nat, pos: nat, i': nat, j': nat)
    requires Walking(vs, i, k, start, end, pos) && Reaches(vs, i', j', start, end)
    ensures if pos == start then k <= i' else i' == i && (j' >= k ==> AtCursor(vs, k, pos))
  {
    if pos != start && j' >= k && pos < Min(vs[j'].low, end) {
      SpanGoesOn(vs, i, k, start, end, pos, i', j', Min(vs[j'].low, end));
    }
  }

  /** The loop cannot go on: nothing that is reached is taken. */
  lemma ReserveBreaks(vs: seq<Node>, ws: seq<Node>, i: nat, k: nat, start: nat, end: nat, pos: nat)
    requires Reserving(vs, ws, i, k, start, end, pos, true) && (k == |vs| || (pos != start && !AtCursor(vs, k, pos)))
    ensures !Taken(vs, start, end)
  {
    forall i': nat, j': nat | Reaches(vs, i', j', start, end) ensures AllOn(vs, i', j' + 1, start, end, false) {
      ReachedSoFar(vs, i, k, start, end, pos, i', j');
    }
  }

  lemma ReserveGap(vs: seq<Node>, ws: seq<Node>, i: nat, k: nat, start: nat, end: nat, pos: nat, exclusive: bool)
    requires Reserving(vs, ws, i, k, start, end, pos, exclusive) && (k == |vs| || (pos != start && !AtCursor(vs, k, pos)))
    ensures !Covered(vs, start, end) && !(exclusive && Taken(vs, start, end))
  {
    SpanBreaks(vs, i, k, start, end, pos);
    if exclusive { ReserveBreaks(vs, ws, i, k, start, end, pos); }
  }

  /** Node k ends the range and is clear: nothing that is reached is taken. */
  lemma ReserveClear(vs: seq<Node>, ws: seq<Node>, i: nat, k: nat, start: nat, end: nat, pos: nat)
    requires Reserving(vs, ws, i, k, start, end, pos, true) && AtCursor(vs, k, pos) && end <= vs[k].low
    requires Spans(vs, FirstOf(i, k, start, pos), k, start, end) && PartIs(vs[k], start, end, false)
    ensures !Taken(vs, start, end)
  {
    hide Spans, PartIs, NotYet;
    forall i': nat, j': nat | Reaches(vs, i', j', start, end) ensures AllOn(vs, i', j' + 1, start, end, false) {
      ReachedSoFar(vs, i, k, start, end, pos, i', j');
      ReachedLast(vs, FirstOf(i, k, start, pos), k, start, end, i', j');
    }
  }

  lemma ReachedLast(vs: seq<Node>, i: nat, k: nat, start: nat, end: nat, i': nat, j': nat)
    requires Spans(vs, i, k, start, end) && Reaches(vs, i', j', start, end)
    ensures i' == i && j' <= k
  {
  }

  lemma ReserveEnds(vs: seq<Node>, ws: seq<Node>, i: nat, k: nat, start: nat, end: nat, pos: nat, exclusive: bool)
    requires Reserving(vs, ws, i, k, start, end, pos, exclusive) && AtCursor(vs, k, pos) && start <= end
    requires Spans(vs, FirstOf(i, k, start, pos), k, start, end)
    ensures Covered(vs, start, end) && |ws| == |vs|
    ensures RangeReserved(vs, ws[k := ReservedNode(vs[k], start, end)], start, end)
  {
    var f := FirstOf(i, k, start, pos);
    forall i': nat, j': nat | Spans(vs, i', j', start, end) ensures i' == f && j' == k {
      SpanReaches(vs, i, k, start, end, pos, i', j');
    }
  }

  lemma ReservesOn(vs: seq<Node>, ws: seq<Node>, i: nat, k: nat, start: nat, end: nat, pos: nat, exclusive: bool)
    requires Reserving(vs, ws, i, k, start, end, pos, exclusive) && AtCursor(vs, k, pos) && vs[k].low < end && start <= end
    requires Spans(vs, FirstOf(i, k, start, pos), k, start, Min(vs[k].low, end))
    requires exclusive ==> PartIs(vs[k], start, end, false)
    ensures |ws| == |vs|
    ensures Reserving(vs, ws[k := ReservedNode(vs[k], start, end)], FirstOf(i, k, start, pos), k + 1, start, end, vs[k].low, exclusive)
  {
    WalkOn(vs, i, k, start, end, pos);
    hide Spans;
    var f := FirstOf(i, k, start, pos);
    assert ws[k := ReservedNode(vs[k], start, end)] == ReservedTo(vs, f, k + 1, start, end);
  }

  lemma ReserveTaken(vs: seq<Node>, i: nat, k: nat, start: nat, end: nat)
    requires k < |vs| && Spans(vs, i, k, start, Min(vs[k].low, end)) && !PartIs(vs[k], start, end, false)
    ensures Taken(vs, start, end)
  {
    assert Reaches(vs, i, k, start, end);
  }

  lemma ReserveShape(vs: seq<Node>, ws: seq<Node>, i: nat, k: nat, start: nat, end: nat, pos: nat, exclusive: bool)
    requires Reserving(vs, ws, i, k, start, end, pos, exclusive)
    ensures Walking(vs, i, k, start, end, pos) && |ws| == |vs| && (k < |vs| ==> ws[k] == vs[k])
    ensures k < |vs| && pos == start && !AtCursor(vs, k, pos) ==> Reserving(vs, ws, k, k + 1, start, end, pos, exclusive)
  {
  }

  /** One turn of the marking loop with reserve == 1, up to the rollback. */
  method ReserveVisit(ns: seq<BootmemNode>, start: nat, end: nat, exclusive: bool, k: nat, pos: nat,
                      ghost vs: seq<Node>, ghost i: nat)
    returns (t: Turn, next: nat)
    requires Separate(ns) && k < |ns| && |vs| == |ns| && start <= end && (DisjointNodes(vs) || Covered(vs, start, end))
    requires Reserving(vs, Views(ns), i, k, start, end, pos, exclusive)
    modifies Nodes(ns), Maps(ns)
    ensures t.GoOn? ==> Reserving(vs, Views(ns), FirstOf(i, k, start, pos), k + 1, start, end, next, exclusive)
    ensures t.Bug? ==> !Covered(vs, start, end)
    ensures t.Bug? || t.Return? ==> !(exclusive && Taken(vs, start, end))
    ensures t.Busy? ==> exclusive && Taken(vs, start, end) && AtCursor(vs, k, pos) && OnlyHintsDropped(old(Views(ns)), Views(ns))
    ensures t.Return? ==> Covered(vs, start, end) && RangeReserved(vs, Views(ns), start, end)
  {
    hide Spans, Taken, Covered, Reserving, Walking, RangeReserved, DisjointNodes, OnlyHintsDropped;
    var n := ns[k];
    ghost var ws, f := Views(ns), FirstOf(i, k, start, pos);
    ReserveShape(vs, ws, i, k, start, end, pos, exclusive);
    if pos < n.min || pos >= n.low {
      if pos != start {
        ReserveGap(vs, ws, i, k, start, end, pos, exclusive);
        return Bug, pos;
      }
      return GoOn, pos;
    }
    SpanAt(vs, i, k, start, end, pos);
    var max := Min(n.low, end);
    var busy := ReserveOn(ns, k, pos - n.min, max - n.min, exclusive);
    if busy {
      ReserveTaken(vs, f, k, start, end);
      return Busy, pos;
    }
    if max == end {
      if exclusive { ReserveClear(vs, ws, i, k, start, end, pos); }
      ReserveEnds(vs, ws, i, k, start, end, pos, exclusive);
      return Return, pos;
    }
    ReservesOn(vs, ws, i, k, start, end, pos, exclusive);
    return GoOn, n.low;
  }

  /** Last node of the span to roll back when node k was busy. */
  function RollbackTo(k: nat, start: nat, pos: nat): nat { if pos == start then k else Max(k, 1) - 1 }

  /** Spans looks at the frame bounds only. */
  lemma SpansByBounds(vs: seq<Node>, ws: seq<Node>, i: nat, j: nat, start: nat, end: nat)
    requires Spans(vs, i, j, start, end) && |ws| == |vs|
    requires forall m :: 0 <= m < |vs| ==> WellFormed(ws[m]) && ws[m].min == vs[m].min && ws[m].low == vs[m].low
    ensures Spans(ws, i, j, start, end)
  {
    forall m | i <= m < j ensures Adjoin(ws, m) {
      assert Adjoin(vs, m);
    }
  }

  /** What the busy reserve leaves behind on node m, and what the rollback makes of it. */
  lemma RollbackNode(nd: Node, rd: Node, start: nat, end: nat, pos: nat)
    requires WellFormed(nd) && nd.min <= pos <= end && HiIdx(nd, pos) == HiIdx(nd, end)
    requires PartIs(nd, start, end, false)
    requires rd == ReservedNode(nd, start, end).(hint := rd.hint) && rd.hint <= nd.hint
    ensures PartIs(rd, start, pos, true)
    ensures var fd := FreedNode(rd, start, pos); fd == nd.(hint := fd.hint) && fd.hint <= nd.hint
  {
  }

  lemma NothingFreed(nd: Node, start: nat)
    requires WellFormed(nd) && nd.min <= start <= nd.low
    ensures var fd := FreedNode(nd, start, start); fd == nd.(hint := fd.hint) && fd.hint <= nd.hint
    ensures PartIs(nd, start, start, true)
  {
  }

  /** Nothing was reserved yet: the rollback is empty. */
  lemma RollbackNone(vs: seq<Node>, ws: seq<Node>, k: nat, start: nat)
    requires Walking(vs, k, k, start, start, start) && AtCursor(vs, k, start) && OnlyHintsDropped(vs, ws)
    ensures Clean(ws, k, k, start, start) && OnlyHintsDropped(vs, FreedTo(ws, k, k + 1, start, start))
  {
    assert Spans(vs, k, k, start, start);
    SpansByBounds(vs, ws, k, k, start, start);
    hide Spans, Freed;
    NothingFreed(ws[k], start);
  }

  lemma RollbackOne(vs: seq<Node>, ws: seq<Node>, i: nat, k: nat, start: nat, end: nat, pos: nat, m: nat)
    requires Passed(vs, i, k, start, end, pos) && AllOn(vs, i, k, start, end, false) && i <= m < k
    requires OnlyHintsDropped(ReservedTo(vs, i, k, start, end), ws)
    ensures PartIs(ws[m], start, pos, true)
    ensures var fd := FreedNode(ws[m], start, pos); fd == vs[m].(hint := fd.hint) && fd.hint <= vs[m].hint
  {
    LowsRise(vs, i, k - 1, start, pos, m, k - 1);
    assert PartIs(vs[m], start, end, false);
    hide FreedNode, PartIs, AllOn;
    RollbackNode(vs[m], ws[m], start, end, pos);
  }

  /** Nodes i..k-1 were reserved: what they cover is a span of its own, all reserved. */
  lemma RollbackSome(vs: seq<Node>, ws: seq<Node>, i: nat, k: nat, start: nat, end: nat, pos: nat)
    requires Passed(vs, i, k, start, end, pos) && AllOn(vs, i, k, start, end, false)
    requires OnlyHintsDropped(ReservedTo(vs, i, k, start, end), ws)
    ensures Clean(ws, i, k - 1, start, pos) && OnlyHintsDropped(vs, FreedTo(ws, i, k, start, pos))
  {
    SpansByBounds(vs, ws, i, k - 1, start, pos);
    hide Spans, FreedNode, PartIs, ReservedNode;
    forall m | i <= m < k
      ensures PartIs(ws[m], start, pos, true)
      ensures var fd := FreedNode(ws[m], start, pos); fd == vs[m].(hint := fd.hint) && fd.hint <= vs[m].hint
    {
      RollbackOne(vs, ws, i, k, start, end, pos, m);
    }
  }

  /** After nodes i..k-1 were reserved, the pages before the cursor are a span of their own, all reserved. */
  lemma RollbackReady(vs: seq<Node>, us: seq<Node>, ws: seq<Node>, i: nat, k: nat, start: nat, end: nat, pos: nat)
    requires Reserving(vs, us, i, k, start, end, pos, true) && AtCursor(vs, k, pos) && OnlyHintsDropped(us, ws)
    ensures var f, l := FirstOf(i, k, start, pos), RollbackTo(k, start, pos);
            Clean(ws, f, l, start, pos) && OnlyHintsDropped(vs, FreedTo(ws, f, l + 1, start, pos))
  {
    hide Spans, OnlyHintsDropped, Clean, FreedTo, ReservedTo, AllOn, NotYet;
    if pos == start {
      RollbackNone(vs, ws, k, start);
    } else {
      RollbackSome(vs, ws, i, k, start, end, pos);
    }
  }

  lemma CleanFrees(vs: seq<Node>, i: nat, j: nat, start: nat, end: nat)
    requires Clean(vs, i, j, start, end)
    ensures start <= end && Frees(vs, start, end)
  {
  }

  /** The recursive mark_bootmem(start, pos, 0, 0): its own BUG() cannot fire, and it restores every bitmap. */
  method Rollback(ns: seq<BootmemNode>, start: nat, pos: nat, ghost vs: seq<Node>, ghost us: seq<Node>, ghost i: nat, ghost k: nat, ghost end: nat)
    requires Separate(ns) && Reserving(vs, us, i, k, start, end, pos, true) && AtCursor(vs, k, pos)
    requires OnlyHintsDropped(us, Views(ns))
    modifies Nodes(ns), Maps(ns)
    ensures OnlyHintsDropped(vs, Views(ns))
  {
    RollbackReady(vs, us, Views(ns), i, k, start, end, pos);
    CleanFrees(Views(ns), FirstOf(i, k, start, pos), RollbackTo(k, start, pos), start, pos);
    hide Clean, Reserving, OnlyHintsDropped, FreedTo, Frees, DisjointNodes;
    var bug := MarkFree(ns, start, pos);
  }

  datatype Marked = Marked | EBusy | Bugged

  /**
   * mark_bootmem with reserve == 1 (reserve_bootmem, whose end is never before its start).  With
   * BOOTMEM_EXCLUSIVE it is all or nothing: busy exactly when a page reached from `start` was taken,
   * and then every bitmap is what it was.  Otherwise it reaches BUG() exactly if nodes do not cover
   * the range.
   */
  method ReserveRange(ns: seq<BootmemNode>, start: nat, end: nat, exclusive: bool) returns (r: Marked)
    requires Separate(ns) && start <= end && (DisjointNodes(Views(ns)) || Covered(Views(ns), start, end))
    modifies Nodes(ns), Maps(ns)
    ensures r.EBusy? <==> exclusive && Taken(old(Views(ns)), start, end)
    ensures r.Bugged? <==> !r.EBusy? && !Covered(old(Views(ns)), start, end)
    ensures r.EBusy? ==> OnlyHintsDropped(old(Views(ns)), Views(ns))
    ensures r.Marked? ==> RangeReserved(old(Views(ns)), Views(ns), start, end)
  {
    ghost var vs, i := Views(ns), 0;
    var pos: nat, k: nat := start, 0;
    assert Reserving(vs, vs, i, k, start, end, pos, exclusive);
    hide Reserving, Walking, ReservedTo, OnlyHintsDropped, DisjointNodes, Taken, Covered, Spans, AtCursor, Separate, Nodes, Maps, FirstOf, RangeReserved;
    while k < |ns|
      invariant k <= |ns| && Reserving(vs, Views(ns), i, k, start, end, pos, exclusive)
    {
      ghost var us := Views(ns);
      var t, next := ReserveVisit(ns, start, end, exclusive, k, pos, vs, i);
      if t.Busy? {
        Rollback(ns, start, pos, vs, us, i, k, end);
        return EBusy;
      }
      if t.Bug? { return Bugged; }
      if t.Return? { return Marked; }
      i := FirstOf(i, k, start, pos);
      pos, k := next, k + 1;
    }
    ReserveGap(vs, Views(ns), i, k, start, end, pos, exclusive);
    return Bugged;
  }

  // ---- allocating from the list ----

  predicate BelowGoal(nd: Node, goal: nat) { goal != 0 && nd.low <= PfnDown(goal) }
  predicate AboveLimit(nd: Node, limit: nat) { limit != 0 && nd.min >= PfnDown(limit) }

  /** Size of the part of the bitmap that lies below the limit; empty for nodes above it. */
  function Window(nd: Node, limit: nat): nat {
    if AboveLimit(nd, limit) then 0 else MidIdx(nd, limit)
  }

  predicate HasRoom(nd: Node, size: nat, align: nat, goal: nat, limit: nat)
    requires WellFormed(nd)
  {
    !BelowGoal(nd, goal) && !AboveLimit(nd, limit) && Chosen(nd, size, align, goal, limit).Some?
  }

  /** Lower and upper end of the search on a node, in page frames. */
  function LoFrame(nd: Node, goal: nat, limit: nat): nat {
    if nd.min < PfnDown(goal) < HiFrame(nd, limit) then PfnDown(goal) else nd.min
  }

  function HiFrame(nd: Node, limit: nat): nat {
    if PfnDown(limit) != 0 && PfnDown(limit) < nd.low then PfnDown(limit) else nd.low
  }

  /** A node has room exactly if it reaches above the goal, begins below the limit, and has an aligned clear run between them. */
  lemma HasRoomMeans(nd: Node, size: nat, align: nat, goal: nat, limit: nat)
    requires WellFormed(nd) && size > 0 && IsPow2(align)
    ensures HasRoom(nd, size, align, goal, limit) <==>
              && (goal == 0 || PfnDown(goal) < nd.low) && (limit == 0 || nd.min < PfnDown(limit))
              && exists p: nat :: FrameRun(nd, p, PfnUp(size), align, LoFrame(nd, goal, limit), HiFrame(nd, limit))
  {
    ChosenInFrames(nd, size, align, goal, limit, LoFrame(nd, goal, limit), HiFrame(nd, limit));
    hide Chosen, FrameRun, LoFrame, HiFrame, PfnDown, PfnUp, IsPow2;
  }

  ghost predicate SomeFit(nd: Node, size: nat, align: nat, limit: nat)
    requires WellFormed(nd)
  {
    exists s: nat :: Fits(nd, s, StepOf(align), PfnUp(size), Window(nd, limit))
  }

  /** Room with any goal means an aligned run of clear bits below the limit. */
  lemma RoomFits(nd: Node, size: nat, align: nat, goal: nat, limit: nat)
    requires WellFormed(nd) && size > 0 && HasRoom(nd, size, align, goal, limit)
    ensures SomeFit(nd, size, align, limit)
  {
    ChosenComplete(nd, size, align, goal, limit);
    var c := Chosen(nd, size, align, goal, limit).value;
    assert Fits(nd, c, StepOf(align), PfnUp(size), Window(nd, limit));
  }

  /** With the goal dropped, any such run is found. */
  lemma FitsGivesRoom(nd: Node, s: nat, size: nat, align: nat, limit: nat)
    requires WellFormed(nd) && size > 0 && Fits(nd, s, StepOf(align), PfnUp(size), Window(nd, limit))
    ensures HasRoom(nd, size, align, 0, limit)
  {
    StartIdxLeast(nd, align, limit, s);
    ChosenComplete(nd, size, align, 0, limit);
  }

  /** alloc_bootmem_bdata on a given node: its limit is rounded down to page frames, and frame 0 means none. */
  ghost predicate AllocatedOn(vs: seq<Node>, ws: seq<Node>, at: nat, size: nat, align: nat, goal: nat, limit: nat, addr: nat) {
    && at < |vs| && WellFormed(vs[at]) && IsPow2(align) && Chosen(vs[at], size, align, goal, limit).Some?
    && var sidx := Chosen(vs[at], size, align, goal, limit).value;
       && addr == vs[at].min * PAGE_SIZE + StartOff(vs[at], sidx, align)
       && ws == vs[at := Allocated(vs[at], sidx, size, align)]
  }

  /** alloc_bootmem_core finds node `at`: it also skips nodes below the goal and stops at nodes above the limit. */
  ghost predicate AllocatedAt(vs: seq<Node>, ws: seq<Node>, at: nat, size: nat, align: nat, goal: nat, limit: nat, addr: nat) {
    AllocatedOn(vs, ws, at, size, align, goal, limit, addr) && HasRoom(vs[at], size, align, goal, limit)
  }

  ghost predicate NoRoomBefore(vs: seq<Node>, k: nat, size: nat, align: nat, goal: nat, limit: nat)
    requires k <= |vs|
  {
    forall m :: 0 <= m < k ==> WellFormed(vs[m]) && !HasRoom(vs[m], size, align, goal, limit)
  }

  method AllocOn(ns: seq<BootmemNode>, k: nat, size: nat, align: nat, goal: nat, limit: nat) returns (r: Option<nat>)
    requires Separate(ns) && k < |ns| && size > 0 && IsPow2(align) && (limit == 0 || goal + size <= limit)
    modifies ns[k], ns[k].bootmap
    ensures r.None? <==> Chosen(old(Views(ns)[k]), size, align, goal, limit).None?
    ensures r.None? ==> Views(ns) == old(Views(ns))
    ensures r.Some? ==>
      var nd, sidx := old(Views(ns)[k]), Chosen(old(Views(ns)[k]), size, align, goal, limit).value;
      && r.value == nd.min * PAGE_SIZE + StartOff(nd, sidx, align)
      && Views(ns) == old(Views(ns))[k := Allocated(nd, sidx, size, align)]
  {
    r := ns[k].AllocBdata(size, align, goal, limit);
  }

  /** alloc_bootmem_core: the early break is sound because the list is sorted. */
  method AllocCore(ns: seq<BootmemNode>, size: nat, align: nat, goal: nat, limit: nat)
    returns (r: Option<nat>, at: nat)
    requires Separate(ns) && SortedByMin(ns) && size > 0 && IsPow2(align) && (limit == 0 || goal + size <= limit)
    modifies Nodes(ns), Maps(ns)
    ensures r.None? ==> Views(ns) == old(Views(ns)) && NoRoomBefore(old(Views(ns)), |ns|, size, align, goal, limit)
    ensures r.Some? ==> at < |ns| && NoRoomBefore(old(Views(ns)), at, size, align, goal, limit)
    ensures r.Some? ==> AllocatedAt(old(Views(ns)), Views(ns), at, size, align, goal, limit, r.value)
  {
    at := 0;
    while at < |ns|
      invariant at <= |ns| && Views(ns) == old(Views(ns))
      invariant NoRoomBefore(old(Views(ns)), at, size, align, goal, limit)
    {
      var n := ns[at];
      ghost var nd := Views(ns)[at];
      if goal != 0 && n.low <= PfnDown(goal) {
        assert BelowGoal(nd, goal);
      } else if limit != 0 && n.min >= PfnDown(limit) {
        BreakIsSound(ns, Views(ns), at, size, align, goal, limit);
        return None, at;
      } else {
        r := AllocOn(ns, at, size, align, goal, limit);
        if r.Some? { return; }
      }
      at := at + 1;
    }
    r := None;
  }

  lemma BreakIsSound(ns: seq<BootmemNode>, vs: seq<Node>, k: nat, size: nat, align: nat, goal: nat, limit: nat)
    requires SortedByMin(ns) && |vs| == |ns| && k < |ns|
    requires forall m :: 0 <= m < |ns| ==> WellFormed(vs[m]) && vs[m].min == ns[m].min
    requires NoRoomBefore(vs, k, size, align, goal, limit) && AboveLimit(vs[k], limit)
    ensures NoRoomBefore(vs, |vs|, size, align, goal, limit)
  {
  }

  /**
   * ___alloc_bootmem_nopanic: try with the goal, then without it.  It fails exactly when no node has
   * an aligned run of clear pages below the limit.
   */
  method AllocNopanic(ns: seq<BootmemNode>, size: nat, align: nat, goal: nat, limit: nat)
    returns (r: Option<nat>, at: nat, g: nat)
    requires Separate(ns) && SortedByMin(ns) && size > 0 && IsPow2(align) && (limit == 0 || goal + size <= limit)
    modifies Nodes(ns), Maps(ns)
    ensures r.None? <==> forall k :: 0 <= k < |ns| ==> !SomeFit(old(Views(ns))[k], size, align, limit)
    ensures r.None? ==> Views(ns) == old(Views(ns))
    ensures r.Some? ==> (g == goal || g == 0) && AllocatedAt(old(Views(ns)), Views(ns), at, size, align, g, limit, r.value)
    ensures r.Some? && g != goal ==> NoRoomBefore(old(Views(ns)), |ns|, size, align, goal, limit)
  {
    g := goal;
    r, at := AllocCore(ns, size, align, g, limit);
    if r.None? && g != 0 {
      g := 0;
      r, at := AllocCore(ns, size, align, g, limit);
    }
    ghost var vs := old(Views(ns));
    if r.None? {
      NoRoomAnywhere(vs, size, align, limit);
    } else {
      RoomFits(vs[at], size, align, g, limit);
    }
  }

  /** The effective limit of a request on a node: none if the goal cannot be met below it. */
  function NodeLimit(size: nat, goal: nat, limit: nat): nat { if limit != 0 && goal + size > limit then 0 else limit }

  /** Room found from some goal is found without one. */
  lemma ChosenWithoutGoal(nd: Node, size: nat, align: nat, goal: nat, limit: nat)
    requires WellFormed(nd) && size > 0 && Chosen(nd, size, align, goal, limit).Some?
    ensures Chosen(nd, size, align, 0, limit).Some?
  {
    ChosenComplete(nd, size, align, goal, limit);
    ChosenComplete(nd, size, align, 0, limit);
    StartIdxLeast(nd, align, limit, Chosen(nd, size, align, goal, limit).value);
  }

  /**
   * ___alloc_bootmem_node_nopanic: the given node first, then the list, then both without the goal.
   * `lim` is the limit in force: a limit that the goal cannot meet is dropped, and stays dropped.  On
   * the given node a limit within the first page is none, so that node is asked separately.
   */
  method AllocNodeNopanic(ns: seq<BootmemNode>, node: nat, size: nat, align: nat, goal: nat, limit: nat)
    returns (r: Option<nat>, at: nat, g: nat, lim: nat)
    requires Separate(ns) && SortedByMin(ns) && size > 0 && IsPow2(align) && node < |ns|
    modifies Nodes(ns), Maps(ns)
    ensures lim == NodeLimit(size, goal, limit) && (g == goal || g == 0)
    ensures r.None? <==> NodeFull(old(Views(ns)), node, size, align, lim)
    ensures r.None? ==> Views(ns) == old(Views(ns))
    ensures r.Some? ==>
      || AllocatedAt(old(Views(ns)), Views(ns), at, size, align, g, lim, r.value)
      || (at == node && AllocatedOn(old(Views(ns)), Views(ns), at, size, align, g, lim, r.value))
    ensures r.Some? && g != goal ==>
      NoRoomBefore(old(Views(ns)), |ns|, size, align, goal, lim) && Chosen(old(Views(ns))[node], size, align, goal, lim).None?
  {
    hide Chosen, SomeFit, HasRoom, NodeFull;
    g, lim := goal, limit;
    while true
      invariant Views(ns) == old(Views(ns)) && (g == goal || g == 0)
      invariant if g == goal then lim == limit || lim == NodeLimit(size, goal, limit) else lim == NodeLimit(size, goal, limit)
      invariant g != goal ==>
        NoRoomBefore(old(Views(ns)), |ns|, size, align, goal, lim) && Chosen(old(Views(ns))[node], size, align, goal, lim).None?
      decreases g
    {
      if lim != 0 && g + size > lim { lim := 0; }
      at := node;
      r := AllocOn(ns, node, size, align, g, lim);
      if r.Some? {
        NodeHasRoom(old(Views(ns)), node, node, size, align, g, lim);
        return;
      }
      r, at := AllocCore(ns, size, align, g, lim);
      if r.Some? {
        NodeHasRoom(old(Views(ns)), node, at, size, align, g, lim);
        return;
      }
      if g == 0 {
        NodeIsFull(Views(ns), node, size, align, lim);
        return;
      }
      g := 0;
    }
  }

  /** No node has an aligned run of clear pages below the limit, and nor has the given one by its own reading of it. */
  ghost predicate NodeFull(vs: seq<Node>, node: nat, size: nat, align: nat, lim: nat) {
    && (forall k :: 0 <= k < |vs| ==> WellFormed(vs[k]) && !SomeFit(vs[k], size, align, lim))
    && node < |vs| && Chosen(vs[node], size, align, 0, lim).None?
  }

  lemma NodeIsFull(vs: seq<Node>, node: nat, size: nat, align: nat, lim: nat)
    requires size > 0 && NoRoomBefore(vs, |vs|, size, align, 0, lim)
    requires node < |vs| && Chosen(vs[node], size, align, 0, lim).None?
    ensures NodeFull(vs, node, size, align, lim)
  {
    NoRoomAnywhere(vs, size, align, lim);
  }

  lemma NodeHasRoom(vs: seq<Node>, node: nat, at: nat, size: nat, align: nat, g: nat, lim: nat)
    requires size > 0 && at < |vs| && node < |vs| && WellFormed(vs[at]) && WellFormed(vs[node])
    requires HasRoom(vs[at], size, align, g, lim) || (at == node && Chosen(vs[node], size, align, g, lim).Some?)
    ensures !NodeFull(vs, node, size, align, lim)
  {
    if HasRoom(vs[at], size, align, g, lim) {
      RoomFits(vs[at], size, align, g, lim);
    } else {
      ChosenWithoutGoal(vs[node], size, align, g, lim);
    }
  }

  lemma NoRoomAnywhere(vs: seq<Node>, size: nat, align: nat, limit: nat)
    requires size > 0 && NoRoomBefore(vs, |vs|, size, align, 0, limit)
    ensures forall k :: 0 <= k < |vs| ==> !SomeFit(vs[k], size, align, limit)
  {
    forall k | 0 <= k < |vs| ensures !SomeFit(vs[k], size, align, limit) {
      forall s: nat | Fits(vs[k], s, StepOf(align), PfnUp(size), Window(vs[k], limit)) ensures false {
        FitsGivesRoom(vs[k], s, size, align, limit);
      }
    }
  }
}
