/**
 * The dentry forest updated in place: d_ancestor, __d_move, d_splice_alias and dput of fs/dcache.c,
 * lock_rename and the tests of do_renameat2 of fs/namei.c.  Dentries are known by number.
 */
module DentryTree {
  import opened Common
  import opened TreeModel

  /**
   * What __d_move did: it moved, perhaps with a warning that it dropped the last count of the old
   * parent; it warned and returned; or it hit one of its BUG_ONs.
   */
  datatype Outcome = Done(lastCount: bool) | Warned | Bug

  datatype Kind = Negative | Directory | Other

  datatype Errno = ENOENT | EEXIST | ENOTDIR | EINVAL | ENOTEMPTY | ELOOP | ESTALE | Refused(code: nat)

  datatype SpliceResult = Added | Spliced(alias: Id) | NotSpliced(error: Errno) | SpliceCrashed

  datatype RenameResult = Renamed | SameFile | Failed(error: Errno) | Crashed

  /** One renameat2 call: what the two last components are, and the errors of code not modelled here. */
  datatype Request = Request(exchange: bool, noreplace: bool, oldKind: Kind, newKind: Kind,
                             oldSlash: bool, newSlash: bool, sameInode: bool, refusal: Option<nat>)

  /** The tests before the trap tests. */
  function EarlyError(q: Request): Option<Errno> {
    if q.oldKind.Negative? then Some(ENOENT)
    else if q.noreplace && !q.newKind.Negative? then Some(EEXIST)
    else if q.exchange && q.newKind.Negative? then Some(ENOENT)
    else if q.exchange && !q.newKind.Directory? && q.newSlash then Some(ENOTDIR)
    else if !q.oldKind.Directory? && (q.oldSlash || (!q.exchange && q.newSlash)) then Some(ENOTDIR)
    else None
  }

  /** What renameat2 promises, stated with the ancestor relation instead of lock_rename's trap. */
  ghost function RenameAnswer(p: Parents, from: Id, to: Id, q: Request): RenameResult
    requires Closed(p) && from in p && to in p
  {
    if EarlyError(q).Some? then Failed(EarlyError(q).value)
    else if Above(p, from, to) then Failed(EINVAL)
    else if Above(p, to, from) then Failed(if q.exchange then EINVAL else ENOTEMPTY)
    else if q.sameInode then SameFile
    else if q.refusal.Some? then Failed(Refused(q.refusal.value))
    else Renamed
  }

  /** What has to be a directory, by the slashes behind the two names, is one. */
  predicate SlashesOk(q: Request) {
    && (q.oldSlash ==> q.oldKind.Directory?)
    && (q.newSlash ==> if q.exchange then q.newKind.Directory? else q.oldKind.Directory?)
  }

  /** The answers by their reasons. */
  lemma RenameReasons(p: Parents, from: Id, to: Id, q: Request)
    requires Closed(p) && from in p && to in p
    ensures var a := RenameAnswer(p, from, to, q);
            var missing := q.oldKind.Negative? || (q.exchange && q.newKind.Negative?);
            var taken := !q.oldKind.Negative? && q.noreplace && !q.newKind.Negative?;
            && (a == Failed(EEXIST) <==> taken)
            && (a == Failed(ENOENT) <==> missing)
            && (a == Failed(ENOTDIR) <==> !missing && !taken && !SlashesOk(q))
            && (a == Failed(EINVAL) <==>
                  !missing && !taken && SlashesOk(q) && (Above(p, from, to) || (q.exchange && Above(p, to, from))))
            && (a == Failed(ENOTEMPTY) <==>
                  !missing && !taken && SlashesOk(q) && !q.exchange && !Above(p, from, to) && Above(p, to, from))
            && (a.Renamed? <==>
                  && !missing && !taken && SlashesOk(q) && !Above(p, from, to) && !Above(p, to, from)
                  && !q.sameInode && q.refusal.None?)
            && (a.SameFile? <==>
                  !missing && !taken && SlashesOk(q) && !Above(p, from, to) && !Above(p, to, from) && q.sameInode)
  {
    hide Above;
  }

  /** The trap is the child of one directory that leads down to the other. */
  ghost predicate IsTrap(p: Parents, p1: Id, p2: Id, trap: Option<Id>)
    requires Closed(p) && p1 in p && p2 in p
  {
    match trap
    case None => p1 == p2 || (!Above(p, p2, p1) && !Above(p, p1, p2))
    case Some(c) =>
      && p1 != p2 && c in p && !IsRoot(p, c)
      && if Above(p, p2, p1) then Up(p, c) == p2 && AncSelf(p, c, p1)
         else Above(p, p1, p2) && Up(p, c) == p1 && AncSelf(p, c, p2)
  }

  lemma NotAboveItself(p: Parents, d: Id)
    requires Forest(p) && d in p
    ensures !Above(p, d, d)
  {
    if Above(p, d, d) { AboveIsHigher(p, d, d); }
  }

  lemma AboveTrans(p: Parents, a: Id, b: Id, c: Id)
    requires Closed(p) && b in p && c in p && Above(p, a, b) && AncSelf(p, b, c)
    ensures Above(p, a, c)
  {
    AncStep(p, b, c);
    AncStep(p, a, b);
    if b != c { AncTrans(p, a, b, Up(p, c)); }
  }

  lemma AboveOneWay(p: Parents, a: Id, b: Id)
    requires Forest(p) && a in p && b in p && Above(p, a, b)
    ensures !Above(p, b, a)
  {
    AncStep(p, a, b);
    if Above(p, b, a) {
      AboveTrans(p, b, a, b);
      NotAboveItself(p, b);
    }
  }

  /** A name is above the other one exactly when its directory is and it is the child in between. */
  lemma AboveThroughParent(p: Parents, x: Id, y: Id)
    requires Forest(p) && x in p && y in p && !IsRoot(p, x) && !IsRoot(p, y) && Above(p, x, y)
    ensures Above(p, Up(p, x), Up(p, y)) && AncSelf(p, x, Up(p, y)) && Up(p, x) != Up(p, y)
  {
    AncStep(p, Up(p, x), Up(p, x));
    AboveTrans(p, Up(p, x), x, Up(p, y));
    NotAboveItself(p, Up(p, y));
  }

  /** The trap tests are exact: the source is the trap iff it is above the target, and the other way round. */
  lemma TrapIsExact(p: Parents, from: Id, to: Id, trap: Option<Id>)
    requires Forest(p) && from in p && to in p && !IsRoot(p, from) && !IsRoot(p, to)
    requires IsTrap(p, Up(p, to), Up(p, from), trap)
    ensures trap == Some(from) <==> Above(p, from, to)
    ensures trap == Some(to) <==> Above(p, to, from)
  {
    var p1, p2 := Up(p, to), Up(p, from);
    if Above(p, from, to) {
      AboveThroughParent(p, from, to);
      OneChildOnPath(p, p1, from, trap.value);
    }
    if Above(p, to, from) {
      AboveThroughParent(p, to, from);
      AboveOneWay(p, p1, p2);
      OneChildOnPath(p, p2, to, trap.value);
    }
  }

  /** What dropping one reference to `d` may do: survivors keep everything, the dead were held by nobody else. */
  ghost predicate Released(t: Tree, r: Tree, d: Id, held: Option<Id>)
    requires Inv(t) && Inv(r) && d in t.parent
  {
    && (forall a {:trigger Survives(t, r, d, held, a)} :: a in r.parent ==> Survives(t, r, d, held, a))
    && (forall a {:trigger Died(t, d, a)} :: a in t.parent && a !in r.parent ==> Died(t, d, a))
  }

  ghost predicate Survives(t: Tree, r: Tree, d: Id, held: Option<Id>, a: Id)
    requires Domains(t) && Domains(r) && a in r.parent
  {
    && a in t.parent && r.parent[a] == t.parent[a] && r.name[a] == t.name[a] && (a in r.hashed <==> a in t.hashed)
    && r.refs[a] + (if a == d then 1 else 0) == t.refs[a] + (if held == Some(a) then 1 else 0)
  }

  ghost predicate Died(t: Tree, d: Id, a: Id)
    requires Inv(t) && d in t.parent && a in t.parent
  {
    AncSelf(t.parent, a, d) && t.refs[a] == if a == d then 1 else 0
  }

  /** What dput kills once it holds the only reference: unhashed, or refused by retain_dentry. */
  predicate Disposable(t: Tree, drop: set<Id>, c: Id) {
    c in t.count && t.count[c] <= 1 && (c !in t.hashed || c in drop)
  }

  ghost predicate FirstUp(p: Parents, d: Id, n: nat, b: Id)
    requires Closed(p) && d in p
  {
    exists i: nat :: i < n && Nth(p, d, i) == b
  }

  /** The dead are the first `n` on the way up from `d`, all of them disposable; the others keep count and hash. */
  ghost predicate Climbed(t: Tree, r: Tree, d: Id, drop: set<Id>, n: nat)
    requires Inv(t) && Inv(r) && d in t.parent
  {
    && (forall i: nat :: i < n ==> Disposable(t, drop, Nth(t.parent, d, i)))
    && (forall b {:trigger FirstUp(t.parent, d, n, b)} :: b in t.parent ==> (b in r.parent <==> !FirstUp(t.parent, d, n, b)))
  }

  ghost predicate Alike(t: Tree, s: Tree, b: Id) {
    b in t.count && b in s.count && s.count[b] == t.count[b] && (b in s.hashed <==> b in t.hashed)
  }

  /** dput kills all of the way up to the first dentry that is not disposable, and nothing else. */
  ghost predicate Swept(t: Tree, r: Tree, d: Id, drop: set<Id>, n: nat)
    requires Inv(t) && Inv(r) && d in t.parent
  {
    Climbed(t, r, d, drop, n) && ((n > 0 && RootAt(t.parent, d, n - 1)) || !Disposable(t, drop, Nth(t.parent, d, n)))
  }

  predicate Uncounted(count: map<Id, int>, d: Id) { d in count && count[d] == 0 }

  class Dcache {
    var parent: Parents
    var name: map<Id, Name>
    var hashed: set<Id>
    var count: map<Id, int>
    ghost var refs: map<Id, nat>

    ghost function View(): Tree
      reads this
    {
      Tree(parent, name, hashed, count, refs)
    }

    ghost predicate Valid()
      reads this
    {
      Inv(View())
    }

    constructor ()
      ensures Valid() && View() == Tree(map[], map[], {}, map[], map[])
    {
      parent, name, hashed, count, refs := map[], map[], {}, map[], map[];
    }

    /** The ancestor-or-self of p2 that is a child of p1, if p1 is above p2. */
    method DAncestor(p1: Id, p2: Id) returns (r: Option<Id>)
      requires Valid() && p2 in parent
      ensures r.Some? <==> Above(parent, p1, p2)
      ensures r.Some? ==> r.value in parent && !IsRoot(parent, r.value) && Up(parent, r.value) == p1
      ensures r.Some? ==> AncSelf(parent, r.value, p2)
    {
      var p := p2;
      AncStep(parent, p2, p2);
      while !IsRoot(parent, p)
        invariant p in parent && AncSelf(parent, p, p2)
        invariant Above(parent, p1, p2) <==> Above(parent, p1, p)
        decreases Depth(parent, p)
      {
        AncStep(parent, p1, Up(parent, p));
        DepthStep(parent, p);
        if Up(parent, p) == p1 {
          return Some(p);
        }
        AncStep(parent, Up(parent, p), p);
        AncStep(parent, Up(parent, p), Up(parent, p));
        AncTrans(parent, Up(parent, p), p, p2);
        p := Up(parent, p);
      }
      return None;
    }

    method DMove(d: Id, x: Id, exchange: bool) returns (o: Outcome)
      requires Valid() && d in parent && x in parent
      requires exchange ==> !IsRoot(parent, d) && !IsRoot(parent, x)
      modifies this
      ensures Valid()
      ensures o.Warned? <==> d == x
      ensures o.Bug? <==> old(d != x && (Above(parent, x, d) || Above(parent, d, x)))
      ensures o.Done? ==> (o.lastCount <==> !exchange && old(!IsRoot(parent, d)) && Uncounted(count, old(Up(parent, d))))
      ensures View() == if !o.Done? then old(View())
                        else if exchange then Exchanged(old(View()), d, x) else Moved(old(View()), d, x)
      ensures o.Done? ==> if exchange then Swapped(old(View()), View(), d, x) else TookOver(old(View()), View(), d, x)
    {
      if d == x { return Warned; }
      var above := DAncestor(x, d);
      if above.Some? { return Bug; }
      var oldParent := Up(parent, d);
      var p := DAncestor(oldParent, x);
      ChildInBetween(parent, d, x, p);
      if IsRoot(parent, d) {
        if p.Some? { return Bug; }
      } else if p.Some? {
        if p.value == d { return Bug; }
      }
      var last := Relink(d, x, exchange);
      return Done(last);
    }

    /** Switch the two in the tree, unhash both and hash what is left under a name. */
    method Relink(d: Id, x: Id, exchange: bool) returns (last: bool)
      requires Valid() && d in parent && x in parent && d != x && !Above(parent, d, x) && !Above(parent, x, d)
      requires exchange ==> !IsRoot(parent, d) && !IsRoot(parent, x)
      modifies this
      ensures Valid()
      ensures View() == if exchange then Exchanged(old(View()), d, x) else Moved(old(View()), d, x)
      ensures if exchange then Swapped(old(View()), View(), d, x) else TookOver(old(View()), View(), d, x)
      ensures last <==> !exchange && old(!IsRoot(parent, d)) && Uncounted(count, old(Up(parent, d)))
    {
      hide Inv, Above, Swapped, TookOver;
      last := false;
      InvShape(View(), d, x);
      if exchange {
        ExchangedKeeps(View(), d, x);
        ExchangedMeans(View(), d, x);
      } else {
        MovedKeeps(View(), d, x);
        MovedMeans(View(), d, x);
      }
      var oldParent, newParent := Up(parent, d), Up(parent, x);
      hashed := hashed - {d, x};
      if !exchange {
        parent, name := parent[d := newParent], name[d := name[x]];
        count := count[newParent := count[newParent] + 1];
        if d != oldParent {
          count := count[oldParent := count[oldParent] - 1];
          last := count[oldParent] == 0;
        }
      } else {
        parent := parent[d := newParent][x := oldParent];
        name := name[d := name[x]][x := name[d]];
        hashed := hashed + {x};
      }
      hashed := hashed + {d};
    }

    method LockRename(p1: Id, p2: Id) returns (trap: Option<Id>)
      requires Valid() && p1 in parent && p2 in parent
      ensures IsTrap(parent, p1, p2, trap)
    {
      if p1 == p2 { return None; }
      trap := DAncestor(p2, p1);
      if trap.Some? { return; }
      trap := DAncestor(p1, p2);
    }

    /** renameat2 from the locks on: `from` was looked up in oldDir, `to` in newDir. */
    method Rename(oldDir: Id, newDir: Id, from: Id, to: Id, q: Request) returns (r: RenameResult)
      requires Valid() && from in parent && to in parent && !IsRoot(parent, from) && !IsRoot(parent, to)
      requires Up(parent, from) == oldDir && Up(parent, to) == newDir && refs[oldDir] > 0
      requires from == to ==> q.sameInode
      modifies this
      ensures Valid()
      ensures r == RenameAnswer(old(parent), from, to, q) && oldDir in count && count[oldDir] > 0
      ensures View() == if !r.Renamed? then old(View())
                        else if q.exchange then Exchanged(old(View()), from, to) else Moved(old(View()), from, to)
      ensures r.Renamed? ==>
        if q.exchange then Swapped(old(View()), View(), from, to) else TookOver(old(View()), View(), from, to)
    {
      assert CountOk(View(), oldDir);
      var trap := LockRename(newDir, oldDir);
      TrapIsExact(parent, from, to, trap);
      if EarlyError(q).Some? { return Failed(EarlyError(q).value); }
      if trap == Some(from) { return Failed(EINVAL); }
      if trap == Some(to) { return Failed(if q.exchange then EINVAL else ENOTEMPTY); }
      if q.sameInode { return SameFile; }
      if q.refusal.Some? { return Failed(Refused(q.refusal.value)); }
      var o := DMove(from, to, q.exchange);
      assert CountOk(View(), oldDir);
      return if o == Done(false) then Renamed else Crashed;
    }

    method Alloc(up: Option<Id>, id: Id, n: Name)
      requires Valid() && id !in parent && (up.Some? ==> up.value in parent)
      modifies this
      ensures Valid()
      ensures View() == if up.Some? then AllocChild(old(View()), up.value, id, n) else AllocRoot(old(View()), id, n)
      ensures parent == old(parent)[id := if up.Some? then up.value else id] && name == old(name)[id := n] && hashed == old(hashed)
    {
      if up.Some? {
        AllocChildKeeps(View(), up.value, id, n);
        count := count[up.value := count[up.value] + 1];
        parent := parent[id := up.value];
      } else {
        AllocRootKeeps(View(), id, n);
        parent := parent[id := id];
      }
      name, count, refs := name[id := n], count[id := 1], refs[id := 1];
    }

    method Dget(d: Id)
      requires Valid() && d in parent
      modifies this
      ensures Valid() && View() == Get(old(View()), d)
    {
      GetKeeps(View(), d);
      count, refs := count[d := count[d] + 1], refs[d := refs[d] + 1];
    }

    /** Drop a reference that is not the last, or whose dentry is kept for later use. */
    method PutOne(d: Id)
      requires Valid() && d in parent && refs[d] > 0
      modifies this
      ensures Valid() && View() == Put(old(View()), d)
    {
      PutKeeps(View(), d);
      count, refs := count[d := count[d] - 1], refs[d := refs[d] - 1];
    }

    /** __dentry_kill of a dentry without children; the reference it had to its parent goes to the caller. */
    method DentryKill(d: Id) returns (up: Option<Id>)
      requires Valid() && d in parent && Kids(parent, d) == {}
      modifies this
      ensures Valid() && View() == Kill(old(View()), d)
      ensures parent == old(parent) - {d} && name == old(name) - {d} && hashed == old(hashed) - {d}
      ensures up == if old(IsRoot(parent, d)) then None else Some(old(Up(parent, d)))
    {
      KillKeeps(View(), d);
      up := if IsRoot(parent, d) then None else Some(Up(parent, d));
      if up.Some? {
        refs := refs[up.value := refs[up.value] + 1];
      }
      parent, name, hashed, count, refs := parent - {d}, name - {d}, hashed - {d}, count - {d}, refs - {d};
    }

    /** `drop` are the dentries that retain_dentry refuses for other reasons than being unhashed. */
    method Dput(d: Id, drop: set<Id>)
      requires Valid() && d in parent && refs[d] > 0
      modifies this
      ensures Valid() && Released(old(View()), View(), d, None)
      ensures exists n: nat :: Swept(old(View()), View(), d, drop, n)
    {
      ghost var t, n := View(), 0;
      var cur := Some(d);
      PuttingStarts(t, d, drop);
      hide Inv, Putting, Released, Swept, Kids;
      while cur.Some?
        invariant Putting(t, View(), d, drop, n, cur)
        decreases cur.Some?, |parent|
      {
        ghost var s := View();
        PuttingShape(t, s, d, drop, n, cur.value);
        if count[cur.value] > 1 || (cur.value in hashed && cur.value !in drop) {
          PuttingPut(t, s, d, drop, n, cur.value);
          PutOne(cur.value);
          cur := None;
        } else {
          PuttingKill(t, s, d, drop, n, cur.value);
          cur := DentryKill(cur.value);
          n := n + 1;
        }
      }
      PuttingEnds(t, View(), d, drop, n);
    }

    /**
     * `alias` is what __d_find_any_alias found for a directory inode, `locks` whether both trylocks of
     * __d_unalias succeed.  `dentry` is negative and in lookup, so it has no children.
     */
    method DSpliceAlias(dentry: Id, alias: Option<Id>, locks: bool, drop: set<Id>) returns (r: SpliceResult)
      requires Valid() && dentry in parent && dentry !in hashed && Kids(parent, dentry) == {} && refs[dentry] > 0
      requires alias.Some? ==> alias.value in parent && alias.value != dentry
      modifies this
      ensures Valid()
      ensures r.Added? <==> alias.None?
      ensures r.Added? ==> View() == old(View()).(hashed := old(hashed) + {dentry})
      ensures r == NotSpliced(ELOOP) <==> alias.Some? && old(Above(parent, alias.value, dentry))
      ensures r == NotSpliced(ESTALE) <==>
                && alias.Some? && old(!Above(parent, alias.value, dentry) && !IsRoot(parent, alias.value))
                && old(Up(parent, alias.value) != Up(parent, dentry)) && !locks
      ensures r.NotSpliced? || r.Added? || r == Spliced(alias.value)
      ensures r.Spliced? ==> InPlace(old(View()), View(), r.alias, dentry)
      ensures alias.Some? ==> Balanced(old(View()), View(), alias.value, if r.Spliced? then 1 else 0)
    {
      if alias.None? {
        HashKeeps(View(), dentry);
        hashed := hashed + {dentry};
        return Added;
      }
      hide Inv, Balanced, InPlace, Get;
      var a := alias.value;
      ghost var t := View();
      GetTree(t, a);
      Dget(a);
      var loop := DAncestor(a, dentry);
      if loop.Some? {
        ReleaseNew(a, drop, t);
        return NotSpliced(ELOOP);
      }
      Childless(View(), dentry, a);
      if IsRoot(parent, a) {
        var o := DMove(a, dentry, false);
        MovedNew(t, a, dentry);
        return if o == Done(false) then Spliced(a) else SpliceCrashed;
      }
      ghost var s := View();
      var ok, crashed := Unalias(a, dentry, locks, drop);
      UnaliasedNew(t, s, View(), a, dentry, ok);
      return if crashed then SpliceCrashed else if ok then Spliced(a) else NotSpliced(ESTALE);
    }

    /** Give the reference on `a` back that was taken after `t`. */
    method ReleaseNew(a: Id, drop: set<Id>, ghost t: Tree)
      requires Valid() && Inv(t) && a in t.parent && View() == Get(t, a)
      modifies this
      ensures Valid() && Balanced(t, View(), a, 0)
    {
      hide Inv;
      GetTree(t, a);
      ghost var s := View();
      Dput(a, drop);
      ReleasedNew(t, s, View(), a);
    }

    /** __d_unalias and the references around it; the caller has taken one on `a`. */
    method Unalias(a: Id, dentry: Id, locks: bool, drop: set<Id>) returns (ok: bool, crashed: bool)
      requires Valid() && dentry in parent && a in parent && a != dentry && refs[a] > 0 && !IsRoot(parent, a)
      requires !Above(parent, a, dentry) && !Above(parent, dentry, a)
      modifies this
      ensures Valid() && !crashed
      ensures ok <==> locks || old(Up(parent, a) == Up(parent, dentry))
      ensures ok ==> InPlace(old(View()), View(), a, dentry)
      ensures Balanced(old(View()), View(), a, if ok then 0 else -1)
    {
      var oldParent := Up(parent, a);
      hide Inv, Balanced, InPlace, Get, Released, Moved, Kids, Above;
      ok, crashed := locks || oldParent == Up(parent, dentry), false;
      ghost var t := View();
      GetTree(t, oldParent);
      Dget(oldParent);
      ghost var s := View();
      if ok {
        crashed := MoveHeld(a, dentry, oldParent);
      } else {
        Dput(a, drop);
      }
      ghost var m := View();
      assert Between(t, s, m, a, dentry, ok);
      StillHeld(t, s, m, a, dentry, ok);
      Dput(oldParent, drop);
      UnaliasedOk(t, s, m, View(), a, dentry, ok);
    }

    /** The move of a dentry whose old parent is held: nothing fires. */
    method MoveHeld(a: Id, dentry: Id, oldParent: Id) returns (crashed: bool)
      requires Valid() && dentry in parent && a in parent && a != dentry && !IsRoot(parent, a) && Up(parent, a) == oldParent
      requires !Above(parent, a, dentry) && !Above(parent, dentry, a) && refs[oldParent] > 0
      modifies this
      ensures Valid() && !crashed && View() == Moved(old(View()), a, dentry)
    {
      var o := DMove(a, dentry, false);
      hide Forest, Closed, Above, Kids;
      HeldIsCounted(View(), oldParent);
      return o != Done(false);
    }
  }

  /** References as before, except that `a` has `more` of them; whoever is still held is still there. */
  ghost predicate Balanced(t: Tree, r: Tree, a: Id, more: int) {
    Domains(t) && Domains(r) && forall b {:trigger BalancedAt(t, r, a, more, b)} :: BalancedAt(t, r, a, more, b)
  }

  predicate BalancedAt(t: Tree, r: Tree, a: Id, more: int, b: Id)
    requires Domains(t) && Domains(r)
  {
    var d := if b == a then more else 0;
    && (b in r.parent ==> b in t.parent && r.refs[b] == t.refs[b] + d)
    && (b in t.parent && t.refs[b] + d > 0 ==> b in r.parent)
  }

  /** `a` has taken the place and the name that `dentry` had, and is hashed there alone. */
  ghost predicate InPlace(t: Tree, r: Tree, a: Id, dentry: Id) {
    && Domains(t) && Domains(r) && dentry in t.parent && a in r.parent
    && r.parent[a] == t.parent[dentry] && r.name[a] == t.name[dentry] && a in r.hashed && dentry !in r.hashed
  }

  lemma InvShape(t: Tree, d: Id, x: Id)
    requires Inv(t) && d in t.parent && x in t.parent
    ensures Domains(t) && Closed(t.parent) && Up(t.parent, d) in t.count && Up(t.parent, x) in t.count
  {
  }

  lemma HashKeeps(t: Tree, d: Id)
    requires Inv(t) && d in t.parent
    ensures Inv(t.(hashed := t.hashed + {d}))
  {
    var r := t.(hashed := t.hashed + {d});
    forall b | b in t.parent ensures CountOk(r, b) { assert CountOk(t, b); }
  }

  /** The shape of the tree with one more reference. */
  lemma GetTree(t: Tree, a: Id)
    requires Inv(t) && a in t.parent
    ensures Domains(t) && Closed(t.parent) && Inv(Get(t, a))
    ensures var s := Get(t, a);
            && s.parent == t.parent && s.name == t.name && s.hashed == t.hashed && Domains(s)
            && s.refs == t.refs[a := t.refs[a] + 1]
  {
    GetKeeps(t, a);
  }

  lemma Childless(t: Tree, d: Id, a: Id)
    requires Inv(t) && d in t.parent && a in t.parent && Kids(t.parent, d) == {}
    ensures Closed(t.parent) && !Above(t.parent, d, a)
  {
    ChildlessIsAboveNobody(t.parent, d, a);
  }

  lemma ReleasedNew(t: Tree, s: Tree, r: Tree, a: Id)
    requires Inv(t) && a in t.parent && Inv(s) && s == Get(t, a) && Inv(r) && Released(s, r, a, None)
    ensures Balanced(t, r, a, 0)
  {
    hide Forest, Counted, Closed, Released;
    forall b ensures BalancedAt(t, r, a, 0, b) { ReleasedAt(s, r, a, b); }
  }

  lemma MovedNew(t: Tree, a: Id, x: Id)
    requires Inv(t) && a in t.parent && x in t.parent && Inv(Get(t, a)) && a != x
    ensures var r := Moved(Get(t, a), a, x); Domains(r) ==> Balanced(t, r, a, 1) && InPlace(t, r, a, x)
  {
    hide Forest, Counted;
    var r := Moved(Get(t, a), a, x);
    if Domains(r) {
      forall b ensures BalancedAt(t, r, a, 1, b) { }
    }
  }

  lemma UnaliasedNew(t: Tree, s: Tree, r: Tree, a: Id, x: Id, ok: bool)
    requires Inv(t) && a in t.parent && x in t.parent && s == Get(t, a)
    requires Balanced(s, r, a, if ok then 0 else -1) && (ok ==> InPlace(s, r, a, x))
    ensures Balanced(t, r, a, if ok then 1 else 0) && (ok ==> InPlace(t, r, a, x))
  {
    hide Forest, Counted, Closed;
    var was, more := if ok then 0 else -1, if ok then 1 else 0;
    forall b ensures BalancedAt(t, r, a, more, b) { assert BalancedAt(s, r, a, was, b); }
  }

  /** What __d_unalias did between taking and dropping the reference on the old parent. */
  ghost predicate Between(t: Tree, s: Tree, m: Tree, a: Id, x: Id, ok: bool) {
    && Inv(t) && a in t.parent && x in t.parent && a != x && !IsRoot(t.parent, a) && t.refs[a] > 0
    && s == Get(t, Up(t.parent, a)) && Inv(s) && Inv(m)
    && if ok then m == Moved(s, a, x) else Released(s, m, a, None)
  }

  lemma StillHeld(t: Tree, s: Tree, m: Tree, a: Id, x: Id, ok: bool)
    requires Between(t, s, m, a, x, ok)
    ensures var p := Up(t.parent, a); Domains(m) && p in m.parent && m.refs[p] > 0
  {
    hide Forest, Counted;
    if !ok { ReleasedAt(s, m, a, Up(t.parent, a)); }
  }

  lemma UnaliasedOk(t: Tree, s: Tree, m: Tree, r: Tree, a: Id, x: Id, ok: bool)
    requires Between(t, s, m, a, x, ok) && Up(t.parent, a) in m.parent && Inv(r) && Released(m, r, Up(t.parent, a), None)
    ensures Balanced(t, r, a, if ok then 0 else -1) && (ok ==> InPlace(t, r, a, x))
  {
    hide Forest, Counted, Released;
    var p, more := Up(t.parent, a), if ok then 0 else -1;
    forall b ensures BalancedAt(t, r, a, more, b) {
      ReleasedAt(m, r, p, b);
      if !ok { ReleasedAt(s, m, a, b); }
    }
    ReleasedAt(m, r, p, a);
    ReleasedAt(m, r, p, x);
  }

  /** What a release means for one dentry. */
  lemma ReleasedAt(t: Tree, r: Tree, d: Id, b: Id)
    requires Inv(t) && Inv(r) && d in t.parent && Released(t, r, d, None)
    ensures b in r.parent ==>
      && b in t.parent && r.parent[b] == t.parent[b] && r.name[b] == t.name[b] && (b in r.hashed <==> b in t.hashed)
      && r.refs[b] + (if b == d then 1 else 0) == t.refs[b]
    ensures b in t.parent && t.refs[b] > (if b == d then 1 else 0) ==> b in r.parent
  {
    hide Forest, Counted, Closed;
    if b in r.parent {
      assert Survives(t, r, d, None, b);
    } else if b in t.parent {
      assert Died(t, d, b);
    }
  }

  lemma PutReleases(t: Tree, s: Tree, d: Id, cur: Id)
    requires Inv(t) && Inv(s) && d in t.parent && Released(t, s, d, Some(cur)) && cur in s.parent && s.refs[cur] > 0
    ensures Inv(Put(s, cur)) && Released(t, Put(s, cur), d, None)
  {
    PutKeeps(s, cur);
    var r := Put(s, cur);
    forall a | a in r.parent ensures Survives(t, r, d, None, a) { assert Survives(t, s, d, Some(cur), a); }
    forall a | a in t.parent && a !in r.parent ensures Died(t, d, a) { assert Died(t, d, a); }
  }

  /** A dentry killed with count one was held only by the reference being dropped. */
  lemma KillReleases(t: Tree, s: Tree, d: Id, cur: Id)
    requires Inv(t) && Inv(s) && d in t.parent && Released(t, s, d, Some(cur)) && cur in s.parent
    requires s.refs[cur] > 0 && s.count[cur] <= 1 && AncSelf(t.parent, cur, d) && (cur != d ==> d !in s.parent)
    ensures Kids(s.parent, cur) == {} && Inv(Kill(s, cur)) && s.parent[cur] == t.parent[cur]
    ensures var up := if IsRoot(s.parent, cur) then None else Some(Up(s.parent, cur));
            Released(t, Kill(s, cur), d, up)
            && (up.Some? ==>
                  && up.value != cur && up.value in Kill(s, cur).parent && Kill(s, cur).refs[up.value] > 0
                  && AncSelf(t.parent, up.value, d) && (up.value != d ==> d !in Kill(s, cur).parent))
  {
    assert CountOk(s, cur);
    KillKeeps(s, cur);
    var up := if IsRoot(s.parent, cur) then None else Some(Up(s.parent, cur));
    var r := Kill(s, cur);
    assert Survives(t, s, d, Some(cur), cur);
    forall a | a in r.parent ensures Survives(t, r, d, up, a) { assert Survives(t, s, d, Some(cur), a); }
    forall a | a in t.parent && a !in r.parent ensures Died(t, d, a) {
      if a != cur { assert a !in s.parent; }
    }
    if up.Some? {
      AncStep(t.parent, up.value, cur);
      AncStep(t.parent, up.value, up.value);
      AncTrans(t.parent, up.value, cur, d);
    }
  }

  ghost predicate Climbing(t: Tree, s: Tree, d: Id, drop: set<Id>, n: nat, cur: Id)
    requires Inv(t) && Inv(s) && d in t.parent
  {
    && Climbed(t, s, d, drop, n) && cur == Nth(t.parent, d, n)
    && forall b {:trigger Alike(t, s, b)} :: b in s.parent ==> Alike(t, s, b)
  }

  /** dput of `d` after `n` kills, with a reference on `cur` left to drop. */
  ghost predicate Putting(t: Tree, s: Tree, d: Id, drop: set<Id>, n: nat, cur: Option<Id>) {
    && Inv(t) && Inv(s) && d in t.parent && Released(t, s, d, cur)
    && if cur.None? then Swept(t, s, d, drop, n)
       else
         && cur.value in s.parent && s.refs[cur.value] > 0 && Climbing(t, s, d, drop, n, cur.value)
         && AncSelf(t.parent, cur.value, d) && (cur.value != d ==> d !in s.parent)
  }

  lemma PuttingStarts(t: Tree, d: Id, drop: set<Id>)
    requires Inv(t) && d in t.parent && t.refs[d] > 0
    ensures Putting(t, t, d, drop, 0, Some(d))
  {
    hide Forest, Counted;
    AncStep(t.parent, d, d);
  }

  lemma PuttingShape(t: Tree, s: Tree, d: Id, drop: set<Id>, n: nat, cur: Id)
    requires Putting(t, s, d, drop, n, Some(cur))
    ensures Inv(s) && Domains(s) && Closed(s.parent) && cur in s.parent && s.refs[cur] > 0
  {
  }

  lemma PuttingEnds(t: Tree, r: Tree, d: Id, drop: set<Id>, n: nat)
    requires Putting(t, r, d, drop, n, None)
    ensures Inv(t) && Inv(r) && d in t.parent && Released(t, r, d, None) && Swept(t, r, d, drop, n)
  {
  }

  lemma PuttingPut(t: Tree, s: Tree, d: Id, drop: set<Id>, n: nat, cur: Id)
    requires Putting(t, s, d, drop, n, Some(cur)) && (s.count[cur] > 1 || (cur in s.hashed && cur !in drop))
    ensures Putting(t, Put(s, cur), d, drop, n, None)
  {
    PutReleases(t, s, d, cur);
    hide Forest, Counted, Released;
    assert Alike(t, s, cur);
  }

  lemma PuttingKill(t: Tree, s: Tree, d: Id, drop: set<Id>, n: nat, cur: Id)
    requires Putting(t, s, d, drop, n, Some(cur)) && s.count[cur] <= 1 && (cur !in s.hashed || cur in drop)
    ensures Kids(s.parent, cur) == {}
    ensures Putting(t, Kill(s, cur), d, drop, n + 1, if IsRoot(s.parent, cur) then None else Some(Up(s.parent, cur)))
  {
    KillReleases(t, s, d, cur);
    hide Forest, Counted, Released, Kids, AncSelf;
    var r := Kill(s, cur);
    KillClimbs(t, s, r, d, drop, n, cur);
  }

  lemma KillClimbs(t: Tree, s: Tree, r: Tree, d: Id, drop: set<Id>, n: nat, cur: Id)
    requires Inv(t) && Inv(s) && d in t.parent && Climbing(t, s, d, drop, n, cur) && cur in s.parent
    requires s.parent[cur] == t.parent[cur] && s.count[cur] <= 1 && (cur !in s.hashed || cur in drop)
    requires Inv(r) && r == Kill(s, cur)
    ensures Climbed(t, r, d, drop, n + 1) && RootAt(t.parent, d, n) == IsRoot(s.parent, cur)
    ensures !IsRoot(s.parent, cur) ==> Climbing(t, r, d, drop, n + 1, Up(s.parent, cur))
  {
    hide Forest, Counted;
    assert Alike(t, s, cur);
    NthSum(t.parent, d, n, 1);
    assert Nth(t.parent, cur, 1) == Nth(t.parent, Up(t.parent, cur), 0);
    forall b | b in t.parent ensures b in r.parent <==> !FirstUp(t.parent, d, n + 1, b) {
      OneFurtherUp(t.parent, d, n, b);
    }
    forall b | b in r.parent ensures Alike(t, r, b) { assert Alike(t, s, b); }
  }

  lemma OneFurtherUp(p: Parents, d: Id, n: nat, b: Id)
    requires Closed(p) && d in p
    ensures FirstUp(p, d, n + 1, b) <==> FirstUp(p, d, n, b) || b == Nth(p, d, n)
  {
    if FirstUp(p, d, n, b) {
      var i: nat :| i < n && Nth(p, d, i) == b;
      assert i < n + 1 && Nth(p, d, i) == b;
    }
    assert n < n + 1 && Nth(p, d, n) == Nth(p, d, n);
  }

  /** The child of d's parent on the way up from x is d itself exactly when d is above x. */
  lemma ChildInBetween(p: Parents, d: Id, x: Id, c: Option<Id>)
    requires Forest(p) && d in p && x in p && d != x
    requires c.Some? <==> Above(p, Up(p, d), x)
    requires c.Some? ==> c.value in p && !IsRoot(p, c.value) && Up(p, c.value) == Up(p, d) && AncSelf(p, c.value, x)
    ensures Above(p, d, x) <==> c.Some? && (IsRoot(p, d) || c.value == d)
  {
    AncStep(p, d, x);
    if !IsRoot(p, d) && Above(p, d, x) {
      AncStep(p, Up(p, d), Up(p, d));
      AboveTrans(p, Up(p, d), d, x);
      OneChildOnPath(p, x, d, c.value);
    }
  }
}
