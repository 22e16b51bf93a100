/**
 * The dentry forest as a value (fs/dcache.c): every dentry points to its parent, a root points to
 * itself.  `refs` are the references that threads hold, `count` is d_lockref.count.
 */
module TreeModel {
  type Id = nat
  type Name = string
  type Parents = map<Id, Id>

  datatype Tree = Tree(parent: Parents, name: map<Id, Name>, hashed: set<Id>, count: map<Id, int>, refs: map<Id, nat>)

  // ---- ancestors ----

  predicate HasParent(p: Parents, d: Id) { d in p && p[d] in p }

  predicate Closed(p: Parents) { forall d {:trigger HasParent(p, d)} :: d in p ==> HasParent(p, d) }

  function Up(p: Parents, d: Id): (r: Id)
    requires Closed(p) && d in p
    ensures r in p
  {
    assert HasParent(p, d);
    p[d]
  }

  predicate IsRoot(p: Parents, d: Id)
    requires d in p
  {
    p[d] == d
  }

  /** The dentry `n` parent steps above `d`. */
  function Nth(p: Parents, d: Id, n: nat): (r: Id)
    requires Closed(p) && d in p
    ensures r in p
    decreases n
  {
    if n == 0 then d else Nth(p, Up(p, d), n - 1)
  }

  ghost predicate RootAt(p: Parents, d: Id, n: nat)
    requires Closed(p) && d in p
  {
    IsRoot(p, Nth(p, d, n))
  }

  /** Finitely many parent steps lead from `d` to a root. */
  ghost predicate Rooted(p: Parents, d: Id)
    requires Closed(p) && d in p
  {
    exists n: nat :: RootAt(p, d, n)
  }

  /** Every dentry reaches a root. */
  ghost predicate Forest(p: Parents) {
    Closed(p) && forall d {:trigger Rooted(p, d)} :: d in p ==> Rooted(p, d)
  }

  /** `a` is `d` or above it. */
  ghost predicate AncSelf(p: Parents, a: Id, d: Id)
    requires Closed(p) && d in p
  {
    exists n: nat :: Nth(p, d, n) == a
  }

  /** `a` is above `d`. */
  ghost predicate Above(p: Parents, a: Id, d: Id)
    requires Closed(p) && d in p
  {
    !IsRoot(p, d) && AncSelf(p, a, Up(p, d))
  }

  lemma AncStep(p: Parents, a: Id, d: Id)
    requires Closed(p) && d in p
    ensures AncSelf(p, a, d) <==> a == d || Above(p, a, d)
  {
    assert Nth(p, d, 0) == d;
    if Above(p, a, d) {
      var n: nat :| Nth(p, Up(p, d), n) == a;
      assert Nth(p, d, n + 1) == a;
    }
    if AncSelf(p, a, d) && a != d {
      var n: nat :| Nth(p, d, n) == a;
      if IsRoot(p, d) { RootStays(p, d, n); }
      assert n > 0 ==> Nth(p, Up(p, d), n - 1) == a;
    }
  }

  lemma {:induction false} RootStays(p: Parents, d: Id, n: nat)
    requires Closed(p) && d in p && IsRoot(p, d)
    ensures Nth(p, d, n) == d
  {
    if n > 0 { RootStays(p, d, n - 1); }
  }

  lemma {:induction false} NthSum(p: Parents, d: Id, m: nat, n: nat)
    requires Closed(p) && d in p
    ensures Nth(p, Nth(p, d, m), n) == Nth(p, d, m + n)
    decreases m
  {
    if m > 0 { NthSum(p, Up(p, d), m - 1, n); }
  }

  lemma AncTrans(p: Parents, a: Id, b: Id, c: Id)
    requires Closed(p) && c in p && b in p && AncSelf(p, a, b) && AncSelf(p, b, c)
    ensures AncSelf(p, a, c)
  {
    var m: nat :| Nth(p, c, m) == b;
    var n: nat :| Nth(p, b, n) == a;
    NthSum(p, c, m, n);
  }

  // ---- depth ----

  ghost function Height(p: Parents, d: Id, n: nat): nat
    requires Closed(p) && d in p && RootAt(p, d, n)
    decreases n
  {
    if IsRoot(p, d) then 0 else 1 + Height(p, Up(p, d), n - 1)
  }

  lemma {:induction false} HeightUnique(p: Parents, d: Id, m: nat, n: nat)
    requires Closed(p) && d in p && RootAt(p, d, m) && RootAt(p, d, n)
    ensures Height(p, d, m) == Height(p, d, n)
    decreases m
  {
    if !IsRoot(p, d) { HeightUnique(p, Up(p, d), m - 1, n - 1); }
  }

  ghost function Depth(p: Parents, d: Id): nat
    requires Forest(p) && d in p
  {
    assert Rooted(p, d);
    var n: nat :| RootAt(p, d, n);
    Height(p, d, n)
  }

  lemma DepthStep(p: Parents, d: Id)
    requires Forest(p) && d in p
    ensures if IsRoot(p, d) then Depth(p, d) == 0 else Depth(p, d) == Depth(p, Up(p, d)) + 1
  {
    assert Rooted(p, d);
    if !IsRoot(p, d) {
      var n: nat :| RootAt(p, d, n) && Depth(p, d) == Height(p, d, n);
      assert RootAt(p, Up(p, d), n - 1);
      assert Rooted(p, Up(p, d));
      var m: nat :| RootAt(p, Up(p, d), m) && Depth(p, Up(p, d)) == Height(p, Up(p, d), m);
      HeightUnique(p, Up(p, d), m, n - 1);
      assert Height(p, d, n) == 1 + Height(p, Up(p, d), n - 1);
    } else {
      RootStays(p, d, 0);
    }
  }

  lemma {:induction false} NthDepth(p: Parents, d: Id, n: nat)
    requires Forest(p) && d in p
    ensures Nth(p, d, n) == d || Depth(p, Nth(p, d, n)) < Depth(p, d)
    decreases n
  {
    if n > 0 {
      DepthStep(p, d);
      NthDepth(p, Up(p, d), n - 1);
    }
  }

  lemma AboveIsHigher(p: Parents, a: Id, d: Id)
    requires Forest(p) && d in p && Above(p, a, d)
    ensures a in p && Depth(p, a) < Depth(p, d)
  {
    var n: nat :| Nth(p, Up(p, d), n) == a;
    NthDepth(p, Up(p, d), n);
    DepthStep(p, d);
  }

  /** Seen from `d`, at most one child of `a` is on the way up. */
  lemma OneChildOnPath(p: Parents, d: Id, b: Id, c: Id)
    requires Forest(p) && d in p && b in p && c in p && AncSelf(p, b, d) && AncSelf(p, c, d)
    requires !IsRoot(p, b) && !IsRoot(p, c) && Up(p, b) == Up(p, c)
    ensures b == c
  {
    var m: nat :| Nth(p, d, m) == b;
    var n: nat :| Nth(p, d, n) == c;
    DepthStep(p, b);
    DepthStep(p, c);
    if m <= n {
      NthSum(p, d, m, n - m);
      NthDepth(p, b, n - m);
    } else {
      NthSum(p, d, n, m - n);
      NthDepth(p, c, m - n);
    }
  }

  // ---- hanging a dentry under another parent ----

  lemma ClosedAfter(p: Parents, x: Id, q: Id)
    requires Closed(p) && (q in p || q == x)
    ensures Closed(p[x := q])
  {
    var r := p[x := q];
    forall d | d in r ensures HasParent(r, d) {
      if d != x { assert HasParent(p, d); }
    }
  }

  lemma {:induction false} SamePath(p: Parents, x: Id, q: Id, d: Id, n: nat)
    requires Closed(p) && q in p && d in p && x in p && !AncSelf(p, x, d)
    ensures Closed(p[x := q]) && Nth(p[x := q], d, n) == Nth(p, d, n)
    decreases n
  {
    ClosedAfter(p, x, q);
    AncStep(p, x, d);
    if n > 0 && !IsRoot(p, d) { SamePath(p, x, q, Up(p, d), n - 1); }
    if IsRoot(p, d) {
      RootStays(p, d, n);
      RootStays(p[x := q], d, n);
    }
  }

  lemma {:induction false} RootedAfter(p: Parents, x: Id, q: Id, d: Id, n: nat)
    requires Forest(p) && q in p && d in p && x in p && !AncSelf(p, x, q) && RootAt(p, d, n)
    ensures Closed(p[x := q]) && Rooted(p[x := q], d)
    decreases n
  {
    ClosedAfter(p, x, q);
    var r := p[x := q];
    if d == x {
      assert Rooted(p, q);
      var m: nat :| RootAt(p, q, m);
      SamePath(p, x, q, q, m);
      assert Nth(p, q, m) != x;
      assert Nth(r, x, m + 1) == Nth(r, q, m);
      assert RootAt(r, x, m + 1);
    } else if IsRoot(p, d) {
      assert RootAt(r, d, 0);
    } else {
      RootedAfter(p, x, q, Up(p, d), n - 1);
      var m: nat :| RootAt(r, Up(p, d), m);
      assert RootAt(r, d, m + 1);
    }
  }

  lemma HangKeepsForest(p: Parents, x: Id, q: Id)
    requires Forest(p) && q in p && x in p && !AncSelf(p, x, q)
    ensures Forest(p[x := q])
  {
    ClosedAfter(p, x, q);
    forall d | d in p ensures Rooted(p[x := q], d) {
      assert Rooted(p, d);
      var n: nat :| RootAt(p, d, n);
      RootedAfter(p, x, q, d, n);
    }
  }

  /** And not otherwise: hanging a dentry below itself makes it unreachable from every root. */
  lemma HangLoses(p: Parents, x: Id, q: Id)
    requires Forest(p) && q in p && x in p && AncSelf(p, x, q) && x != q
    ensures !Forest(p[x := q])
  {
    ClosedAfter(p, x, q);
    var r := p[x := q];
    if Forest(r) {
      AncStep(p, x, q);
      BelowStays(p, x, q, q);
      DepthStep(r, x);
      var n: nat :| Nth(r, q, n) == x;
      NthDepth(r, q, n);
    }
  }

  lemma {:induction false} BelowStays(p: Parents, x: Id, q: Id, d: Id)
    requires Forest(p) && q in p && d in p && x in p && AncSelf(p, x, d)
    ensures Closed(p[x := q]) && AncSelf(p[x := q], x, d)
    decreases Depth(p, d)
  {
    ClosedAfter(p, x, q);
    AncStep(p, x, d);
    AncStep(p[x := q], x, d);
    DepthStep(p, d);
    if d != x { BelowStays(p, x, q, Up(p, d)); }
  }

  // ---- children ----

  ghost function Kids(p: Parents, a: Id): set<Id> { set c | c in p && c != a && p[c] == a }

  lemma KidsMoved(p: Parents, x: Id, q: Id, a: Id)
    requires x in p && x != q
    ensures |Kids(p[x := q], a)| == |Kids(p, a)| + (if a == q then 1 else 0) - (if a == p[x] && a != x then 1 else 0)
  {
    var r := p[x := q];
    if a == q && a == p[x] {
      assert Kids(r, a) == Kids(p, a);
    } else if a == q {
      assert x !in Kids(p, a);
      assert Kids(r, a) == Kids(p, a) + {x};
    } else if a == p[x] && a != x {
      assert x in Kids(p, a);
      assert Kids(r, a) == Kids(p, a) - {x};
    } else {
      assert Kids(r, a) == Kids(p, a);
    }
  }

  lemma NoKids(p: Parents, d: Id, c: Id)
    requires Kids(p, d) == {} && c in p && c != d
    ensures p[c] != d
  {
    assert c !in Kids(p, d);
  }

  /** A dentry without children is above nobody. */
  lemma {:induction false} ChildlessIsAboveNobody(p: Parents, d: Id, c: Id)
    requires Forest(p) && d in p && c in p && Kids(p, d) == {}
    ensures !Above(p, d, c)
    decreases Depth(p, c)
  {
    DepthStep(p, c);
    if !IsRoot(p, c) {
      AncStep(p, d, Up(p, c));
      if Up(p, c) != d { ChildlessIsAboveNobody(p, d, Up(p, c)); }
      else if c != d { NoKids(p, d, c); }
    }
  }

  // ---- the invariant ----

  ghost predicate CountOk(t: Tree, d: Id)
    requires d in t.count && d in t.refs
  {
    t.count[d] == t.refs[d] + |Kids(t.parent, d)|
  }

  predicate Domains(t: Tree) {
    && t.count.Keys == t.parent.Keys && t.refs.Keys == t.parent.Keys && t.name.Keys == t.parent.Keys
    && t.hashed <= t.parent.Keys
  }

  /** Every count is the references held plus the children. */
  ghost predicate Counted(t: Tree)
    requires Domains(t)
  {
    forall d {:trigger CountOk(t, d)} :: d in t.parent ==> CountOk(t, d)
  }

  ghost predicate Inv(t: Tree) {
    Domains(t) && Closed(t.parent) && Forest(t.parent) && Counted(t)
  }

  /** Whoever is held is counted. */
  lemma HeldIsCounted(t: Tree, d: Id)
    requires Inv(t) && d in t.parent && t.refs[d] > 0
    ensures t.count[d] > 0
  {
    assert CountOk(t, d);
  }

  // ---- the operations ----

  /** d_alloc_anon and d_make_root: a root with one reference. */
  function AllocRoot(t: Tree, id: Id, name: Name): Tree {
    Tree(t.parent[id := id], t.name[id := name], t.hashed, t.count[id := 1], t.refs[id := 1])
  }

  /** d_alloc: a child with one reference, which itself counts at its parent. */
  function AllocChild(t: Tree, q: Id, id: Id, name: Name): Tree
    requires q in t.count
  {
    Tree(t.parent[id := q], t.name[id := name], t.hashed, t.count[q := t.count[q] + 1][id := 1], t.refs[id := 1])
  }

  function Get(t: Tree, d: Id): Tree
    requires d in t.count && d in t.refs
  {
    t.(count := t.count[d := t.count[d] + 1], refs := t.refs[d := t.refs[d] + 1])
  }

  function Put(t: Tree, d: Id): Tree
    requires d in t.count && d in t.refs && t.refs[d] > 0
  {
    t.(count := t.count[d := t.count[d] - 1], refs := t.refs[d := t.refs[d] - 1])
  }

  /** __dentry_kill: the dentry is gone, and its reference to the parent is left to the caller. */
  function Kill(t: Tree, d: Id): Tree
    requires Domains(t) && Closed(t.parent) && d in t.parent
  {
    var q := Up(t.parent, d);
    Tree(t.parent - {d}, t.name - {d}, t.hashed - {d}, t.count - {d},
         if q == d then t.refs - {d} else t.refs[q := t.refs[q] + 1] - {d})
  }

  /** __d_move without exchange: `d` takes the name and the place of `x`; `x` stays there unhashed. */
  function Moved(t: Tree, d: Id, x: Id): Tree
    requires Domains(t) && Closed(t.parent) && d in t.parent && x in t.parent
  {
    var was, q := Up(t.parent, d), Up(t.parent, x);
    var up := t.count[q := t.count[q] + 1];
    t.(parent := t.parent[d := q], name := t.name[d := t.name[x]], hashed := t.hashed - {d, x} + {d},
       count := if d == was then up else up[was := up[was] - 1])
  }

  /** __d_move with exchange. */
  function Exchanged(t: Tree, d: Id, x: Id): Tree
    requires Domains(t) && Closed(t.parent) && d in t.parent && x in t.parent
  {
    t.(parent := t.parent[d := Up(t.parent, x)][x := Up(t.parent, d)], name := t.name[d := t.name[x]][x := t.name[d]],
       hashed := t.hashed - {d, x} + {x} + {d})
  }

  // ---- what they change ----

  /** `b` has the parent, the name and the hash it had. */
  predicate Same(t: Tree, r: Tree, b: Id) {
    && b in t.parent && b in r.parent && b in t.name && b in r.name
    && r.parent[b] == t.parent[b] && r.name[b] == t.name[b] && (b in r.hashed <==> b in t.hashed)
  }

  /** `d` is under the parent and the name that `x` had, and hashed. */
  predicate TookPlace(t: Tree, r: Tree, d: Id, x: Id) {
    && x in t.parent && x in t.name && d in r.parent && d in r.name
    && r.parent[d] == t.parent[x] && r.name[d] == t.name[x] && d in r.hashed
  }

  ghost predicate OthersSame(t: Tree, r: Tree, d: Id, x: Id) {
    r.parent.Keys == t.parent.Keys && forall b {:trigger Same(t, r, b)} :: b in t.parent && b != d && b != x ==> Same(t, r, b)
  }

  /** `d` took over the place of `x`, which stays there unhashed. */
  ghost predicate TookOver(t: Tree, r: Tree, d: Id, x: Id) {
    && TookPlace(t, r, d, x) && OthersSame(t, r, d, x)
    && x in r.parent && x in r.name && r.parent[x] == t.parent[x] && r.name[x] == t.name[x] && x !in r.hashed
  }

  /** `d` and `x` changed places. */
  ghost predicate Swapped(t: Tree, r: Tree, d: Id, x: Id) {
    TookPlace(t, r, d, x) && TookPlace(t, r, x, d) && OthersSame(t, r, d, x)
  }

  lemma MovedMeans(t: Tree, d: Id, x: Id)
    requires Domains(t) && Closed(t.parent) && d in t.parent && x in t.parent && d != x
    ensures TookOver(t, Moved(t, d, x), d, x)
  {
  }

  lemma ExchangedMeans(t: Tree, d: Id, x: Id)
    requires Domains(t) && Closed(t.parent) && d in t.parent && x in t.parent && d != x
    ensures Swapped(t, Exchanged(t, d, x), d, x)
  {
  }

  // ---- each keeps the invariant ----

  lemma KidsOther(p: Parents, r: Parents, x: Id, a: Id)
    requires if x in p then r == p - {x} && p[x] != a else x in r && r == p[x := r[x]] && r[x] != a
    requires a != x
    ensures Kids(r, a) == Kids(p, a)
  {
  }

  lemma {:induction false} GrownPath(p: Parents, x: Id, q: Id, d: Id, n: nat)
    requires Closed(p) && x !in p && (q in p || q == x) && d in p
    ensures Closed(p[x := q]) && Nth(p[x := q], d, n) == Nth(p, d, n)
    decreases n
  {
    ClosedAfter(p, x, q);
    if n > 0 { GrownPath(p, x, q, Up(p, d), n - 1); }
  }

  lemma GrownForest(p: Parents, x: Id, q: Id)
    requires Forest(p) && x !in p && (q in p || q == x)
    ensures Forest(p[x := q])
  {
    ClosedAfter(p, x, q);
    var r := p[x := q];
    forall d | d in p ensures Rooted(r, d) {
      assert Rooted(p, d);
      var n: nat :| RootAt(p, d, n);
      GrownPath(p, x, q, d, n);
      assert RootAt(r, d, n);
    }
    if q == x {
      assert RootAt(r, x, 0);
    } else {
      assert Rooted(r, q);
      var n: nat :| RootAt(r, q, n);
      assert RootAt(r, x, n + 1);
    }
  }

  lemma FreshHasNoKids(p: Parents, x: Id, q: Id)
    requires Closed(p) && x !in p
    ensures Kids(p[x := q], x) == {}
  {
    forall c | c in p ensures p[c] != x { assert HasParent(p, c); }
  }

  lemma AllocRootKeeps(t: Tree, id: Id, name: Name)
    requires Inv(t) && id !in t.parent
    ensures Inv(AllocRoot(t, id, name))
  {
    var r := AllocRoot(t, id, name);
    GrownForest(t.parent, id, id);
    FreshHasNoKids(t.parent, id, id);
    forall d | d in r.parent ensures CountOk(r, d) {
      if d != id {
        KidsOther(t.parent, r.parent, id, d);
        assert CountOk(t, d);
      }
    }
  }

  lemma AllocChildKeeps(t: Tree, q: Id, id: Id, name: Name)
    requires Inv(t) && id !in t.parent && q in t.parent
    ensures Inv(AllocChild(t, q, id, name))
  {
    var r := AllocChild(t, q, id, name);
    GrownForest(t.parent, id, q);
    FreshHasNoKids(t.parent, id, q);
    assert Kids(r.parent, q) == Kids(t.parent, q) + {id};
    forall d | d in r.parent ensures CountOk(r, d) {
      if d != id { assert CountOk(t, d); }
      if d != id && d != q { KidsOther(t.parent, r.parent, id, d); }
    }
  }

  lemma GetKeeps(t: Tree, d: Id)
    requires Inv(t) && d in t.parent
    ensures Inv(Get(t, d))
  {
    forall a | a in t.parent ensures CountOk(Get(t, d), a) { assert CountOk(t, a); }
  }

  lemma PutKeeps(t: Tree, d: Id)
    requires Inv(t) && d in t.parent && t.refs[d] > 0
    ensures Inv(Put(t, d))
  {
    forall a | a in t.parent ensures CountOk(Put(t, d), a) { assert CountOk(t, a); }
  }

  /** The last reference is a thread's own only if the dentry has no children. */
  lemma LastReference(t: Tree, d: Id)
    requires Inv(t) && d in t.parent && t.count[d] == t.refs[d]
    ensures Kids(t.parent, d) == {}
  {
    assert CountOk(t, d);
  }

  lemma ClosedPruned(p: Parents, x: Id)
    requires Closed(p) && x in p && Kids(p, x) == {}
    ensures Closed(p - {x})
  {
    var r := p - {x};
    forall c | c in r ensures HasParent(r, c) {
      NoKids(p, x, c);
      assert HasParent(p, c);
    }
  }

  lemma {:induction false} PrunedPath(p: Parents, x: Id, d: Id, n: nat)
    requires Closed(p) && x in p && d in p && d != x && Kids(p, x) == {}
    ensures Closed(p - {x}) && Nth(p - {x}, d, n) == Nth(p, d, n) && Nth(p, d, n) != x
    decreases n
  {
    ClosedPruned(p, x);
    NoKids(p, x, d);
    if n > 0 { PrunedPath(p, x, Up(p, d), n - 1); }
  }

  lemma PrunedForest(p: Parents, x: Id)
    requires Forest(p) && x in p && Kids(p, x) == {}
    ensures Forest(p - {x})
  {
    var r := p - {x};
    ClosedPruned(p, x);
    forall d | d in r ensures Rooted(r, d) {
      assert Rooted(p, d);
      var n: nat :| RootAt(p, d, n);
      PrunedPath(p, x, d, n);
      assert RootAt(r, d, n);
    }
  }

  /** Killing hands the child's reference to its parent over to the killer: counts stay exact. */
  lemma KillKeeps(t: Tree, d: Id)
    requires Inv(t) && d in t.parent && Kids(t.parent, d) == {}
    ensures Inv(Kill(t, d))
  {
    var r, q := Kill(t, d), Up(t.parent, d);
    PrunedForest(t.parent, d);
    if q != d {
      assert d in Kids(t.parent, q);
      assert Kids(r.parent, q) == Kids(t.parent, q) - {d};
    }
    forall a | a in r.parent ensures CountOk(r, a) {
      assert CountOk(t, a);
      if a != q { KidsOther(t.parent, r.parent, d, a); }
    }
  }

  lemma NotAboveNotAncSelf(p: Parents, d: Id, x: Id)
    requires Forest(p) && d in p && x in p && d != x && !Above(p, d, x)
    ensures !AncSelf(p, d, Up(p, x))
  {
    if IsRoot(p, x) {
      AncStep(p, d, x);
    }
  }

  lemma MovedForest(p: Parents, d: Id, x: Id)
    requires Forest(p) && d in p && x in p && d != x && !Above(p, d, x)
    ensures Up(p, x) != d && Forest(p[d := Up(p, x)])
  {
    NotAboveNotAncSelf(p, d, x);
    HangKeepsForest(p, d, Up(p, x));
    AncStep(p, d, Up(p, x));
  }

  lemma MovedCount(t: Tree, d: Id, x: Id, a: Id)
    requires Domains(t) && Closed(t.parent) && d in t.parent && x in t.parent && a in t.parent && Up(t.parent, x) != d
    requires CountOk(t, a)
    ensures CountOk(Moved(t, d, x), a)
  {
    KidsMoved(t.parent, d, Up(t.parent, x), a);
  }

  lemma MovedDomains(t: Tree, d: Id, x: Id)
    requires Domains(t) && Closed(t.parent) && d in t.parent && x in t.parent
    ensures Domains(Moved(t, d, x)) && Domains(Exchanged(t, d, x))
  {
  }

  lemma MovedKeeps(t: Tree, d: Id, x: Id)
    requires Inv(t) && d in t.parent && x in t.parent && d != x && !Above(t.parent, d, x)
    ensures Inv(Moved(t, d, x))
  {
    MovedForest(t.parent, d, x);
    MovedDomains(t, d, x);
    forall a | a in t.parent ensures CountOk(Moved(t, d, x), a) {
      assert CountOk(t, a);
      MovedCount(t, d, x, a);
    }
  }

  lemma ExchangedForest(p: Parents, d: Id, x: Id)
    requires Forest(p) && d in p && x in p && d != x
    requires !IsRoot(p, d) && !Above(p, d, x) && !Above(p, x, d)
    ensures Up(p, x) != d && Up(p, d) != x && Forest(p[d := Up(p, x)][x := Up(p, d)])
  {
    MovedForest(p, d, x);
    ExchangeSecond(p, d, x);
    HangKeepsForest(p[d := Up(p, x)], x, Up(p, d));
    AncStep(p[d := Up(p, x)], x, Up(p, d));
  }

  lemma ExchangedCount(t: Tree, d: Id, x: Id, a: Id)
    requires Domains(t) && Closed(t.parent) && d in t.parent && x in t.parent && a in t.parent && d != x
    requires Up(t.parent, x) != d && Up(t.parent, d) != x && Up(t.parent, x) != x && Up(t.parent, d) != d
    requires CountOk(t, a)
    ensures CountOk(Exchanged(t, d, x), a)
  {
    var p := t.parent;
    KidsMoved(p, d, Up(p, x), a);
    KidsMoved(p[d := Up(p, x)], x, Up(p, d), a);
  }

  lemma ExchangedKeeps(t: Tree, d: Id, x: Id)
    requires Inv(t) && d in t.parent && x in t.parent && d != x
    requires !IsRoot(t.parent, d) && !IsRoot(t.parent, x) && !Above(t.parent, d, x) && !Above(t.parent, x, d)
    ensures Inv(Exchanged(t, d, x))
  {
    ExchangedForest(t.parent, d, x);
    MovedDomains(t, d, x);
    forall a | a in t.parent ensures CountOk(Exchanged(t, d, x), a) {
      assert CountOk(t, a);
      ExchangedCount(t, d, x, a);
    }
  }

  /** After `d` has taken the place of `x`, `x` can still be hung where `d` was. */
  lemma ExchangeSecond(p: Parents, d: Id, x: Id)
    requires Forest(p) && d in p && x in p && d != x && !IsRoot(p, d)
    requires !Above(p, d, x) && !Above(p, x, d)
    ensures Closed(p[d := Up(p, x)])
    ensures !AncSelf(p[d := Up(p, x)], x, Up(p, d))
  {
    ClosedAfter(p, d, Up(p, x));
    if AncSelf(p, d, Up(p, d)) { AboveIsHigher(p, d, d); }
    forall n: nat {:trigger Nth(p[d := Up(p, x)], Up(p, d), n)} ensures Nth(p[d := Up(p, x)], Up(p, d), n) != x {
      SamePath(p, d, Up(p, x), Up(p, d), n);
    }
  }

  // ---- every history ----

  datatype Op =
    | NewRoot(id: Id, name: Name)
    | NewChild(up: Id, id: Id, name: Name)
    | DoGet(d: Id)
    | DoPut(d: Id)
    | DoKill(d: Id)
    | DoMove(d: Id, x: Id)
    | DoExchange(d: Id, x: Id)

  /** What the callers see to: a put needs a reference, a kill the last count, a move unrelated names. */
  ghost predicate Enabled(t: Tree, op: Op)
    requires Inv(t)
  {
    match op
    case NewRoot(id, _) => id !in t.parent
    case NewChild(up, id, _) => id !in t.parent && up in t.parent
    case DoGet(d) => d in t.parent
    case DoPut(d) => d in t.parent && t.refs[d] > 0
    case DoKill(d) => d in t.parent && t.count[d] == t.refs[d] <= 1
    case DoMove(d, x) => d in t.parent && x in t.parent && d != x && !Above(t.parent, d, x) && !Above(t.parent, x, d)
    case DoExchange(d, x) =>
      && d in t.parent && x in t.parent && d != x && !Above(t.parent, d, x) && !Above(t.parent, x, d)
      && !IsRoot(t.parent, d) && !IsRoot(t.parent, x)
  }

  /** Every operation keeps the parents a forest and the counts exact. */
  ghost function Apply(t: Tree, op: Op): (r: Tree)
    requires Inv(t) && Enabled(t, op)
    ensures Inv(r)
  {
    match op
    case NewRoot(id, name) => AllocRootKeeps(t, id, name); AllocRoot(t, id, name)
    case NewChild(up, id, name) => AllocChildKeeps(t, up, id, name); AllocChild(t, up, id, name)
    case DoGet(d) => GetKeeps(t, d); Get(t, d)
    case DoPut(d) => PutKeeps(t, d); Put(t, d)
    case DoKill(d) => LastReference(t, d); KillKeeps(t, d); Kill(t, d)
    case DoMove(d, x) => MovedKeeps(t, d, x); Moved(t, d, x)
    case DoExchange(d, x) => ExchangedKeeps(t, d, x); Exchanged(t, d, x)
  }

  ghost function Empty(): (t: Tree)
    ensures Inv(t)
  {
    Tree(map[], map[], {}, map[], map[])
  }

  ghost predicate History(t: Tree, ops: seq<Op>, r: Tree)
    requires Inv(t)
    decreases |ops|
  {
    if ops == [] then r == t
    else Enabled(t, ops[0]) && History(Apply(t, ops[0]), ops[1..], r)
  }

  lemma {:induction false} HistoryKeeps(t: Tree, ops: seq<Op>, r: Tree)
    requires Inv(t) && History(t, ops, r)
    ensures Inv(r)
    decreases |ops|
  {
    if ops != [] { HistoryKeeps(Apply(t, ops[0]), ops[1..], r); }
  }

  /**
   * After any history: whoever climbs from any dentry reaches a root, and a dentry whose count is
   * zero has no holder and no children.
   */
  lemma ReachableForest(ops: seq<Op>, r: Tree, d: Id)
    requires History(Empty(), ops, r) && d in r.parent
    ensures d in r.count && d in r.refs && Closed(r.parent) && exists n: nat :: RootAt(r.parent, d, n)
    ensures r.count[d] == r.refs[d] + |Kids(r.parent, d)|
    ensures r.count[d] == 0 ==> r.refs[d] == 0 && Kids(r.parent, d) == {}
  {
    HistoryKeeps(Empty(), ops, r);
    assert Rooted(r.parent, d);
    assert CountOk(r, d);
  }
}
