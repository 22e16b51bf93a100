/**
 * How a dentry dies (fs/dcache.c): dput, __dentry_kill, the LRU walk and shrink_dentry_list run by
 * any number of threads.  Each event is one section under d_lock, one lock-free change of the count,
 * or one dentry_free.  __dentry_kill drops d_lock between marking the dentry dead and deciding who
 * frees it, and a shrinker may take the dentry off its private list in between.
 */
module DentryKill {
  type Tid = nat
  type Did = nat

  const DEAD: int := -128

  /** The list that d_lru is linked into. */
  datatype Where = Nowhere | OnLru | OnShrink(u: Tid)

  /** `refs` are the references held; the boolean fields are the bits of d_flags and whether it is hashed. */
  datatype Dentry = Dentry(count: int, refs: nat, lru: bool, shrink: bool, mayFree: bool, referenced: bool,
                           hashed: bool, on: Where, freed: nat)

  datatype PC =
    | Idle
    | PutZero(d: Did)   // fast_dput took the count to zero without the lock
    | KillLast(d: Did)  // in __dentry_kill, before its last section
    | Freeing(d: Did)   // decided to call dentry_free

  /** `nr` is nr_dentry_unused, `own` the thread that is in KillLast or Freeing for a dentry. */
  datatype State = State(ds: map<Did, Dentry>, nr: int, pc: map<Tid, PC>, own: map<Did, Tid>, warned: bool)

  datatype Event =
    | Create(d: Did, hashed: bool)
    | GetRef(d: Did)
    | FastPut(t: Tid, d: Did)
    | ZeroDone(t: Tid)
    | ZeroReget(t: Tid)
    | SlowPut(t: Tid, d: Did, keep: bool)
    | LastSection(t: Tid)
    | Free(t: Tid)
    | LruWalk(u: Tid, d: Did)
    | LruWalkAll(u: Tid, d: Did)
    | Collect(u: Tid, d: Did)
    | ShrinkGiveUp(u: Tid, d: Did)
    | ShrinkKill(u: Tid, d: Did)
    | Unhash(d: Did)

  // ---- the list helpers, each with its D_FLAG_VERIFY ----

  function Set(s: State, d: Did, e: Dentry): State { s.(ds := s.ds[d := e]) }

  function Verify(s: State, d: Did, lru: bool, shrink: bool): State
    requires d in s.ds
  {
    s.(warned := s.warned || s.ds[d].lru != lru || s.ds[d].shrink != shrink)
  }

  function LruAdd(s: State, d: Did): State
    requires d in s.ds
  {
    Set(Verify(s, d, false, false), d, s.ds[d].(lru := true, on := OnLru)).(nr := s.nr + 1)
  }

  function LruDel(s: State, d: Did): State
    requires d in s.ds
  {
    Set(Verify(s, d, true, false), d, s.ds[d].(lru := false, on := Nowhere)).(nr := s.nr - 1)
  }

  function ShrinkDel(s: State, d: Did): State
    requires d in s.ds
  {
    Set(Verify(s, d, true, true), d, s.ds[d].(lru := false, shrink := false, on := Nowhere)).(nr := s.nr - 1)
  }

  function ShrinkAdd(s: State, d: Did, u: Tid): State
    requires d in s.ds
  {
    Set(Verify(s, d, false, false), d, s.ds[d].(lru := true, shrink := true, on := OnShrink(u))).(nr := s.nr + 1)
  }

  function ShrinkMove(s: State, d: Did, u: Tid): State
    requires d in s.ds
  {
    Set(Verify(s, d, true, false), d, s.ds[d].(shrink := true, on := OnShrink(u)))
  }

  /** The first section of __dentry_kill. */
  function KillFirst(s: State, t: Tid, d: Did): State
    requires d in s.ds
  {
    var dead := Set(s, d, s.ds[d].(count := DEAD, refs := 0));
    var off := if dead.ds[d].lru && !dead.ds[d].shrink then LruDel(dead, d) else dead;
    Set(off, d, off.ds[d].(hashed := false)).(pc := s.pc[t := KillLast(d)], own := s.own[d := t])
  }

  // ---- the events ----

  predicate Runs(s: State, t: Tid) { t in s.pc && s.pc[t].Idle? }

  predicate Guard(s: State, e: Event) {
    match e
    case Create(d, _) => d !in s.ds
    case GetRef(d) => d in s.ds && s.ds[d].count >= 0
    case FastPut(t, d) => Runs(s, t) && d in s.ds && s.ds[d].refs > 0
    case ZeroDone(t) => t in s.pc && s.pc[t].PutZero? && s.pc[t].d in s.ds
    case ZeroReget(t) => t in s.pc && s.pc[t].PutZero? && s.pc[t].d in s.ds && s.ds[s.pc[t].d].count == 0
    case SlowPut(t, d, keep) => Runs(s, t) && d in s.ds && s.ds[d].refs > 0 && (keep ==> s.ds[d].hashed)
    case LastSection(t) => t in s.pc && s.pc[t].KillLast? && s.pc[t].d in s.ds
    case Free(t) => t in s.pc && s.pc[t].Freeing? && s.pc[t].d in s.ds
    case LruWalk(u, d) => Runs(s, u) && d in s.ds && s.ds[d].on.OnLru?
    case LruWalkAll(u, d) => Runs(s, u) && d in s.ds && s.ds[d].on.OnLru?
    case Collect(u, d) => Runs(s, u) && d in s.ds && s.ds[d].count >= 0 && !s.ds[d].shrink
    case ShrinkGiveUp(u, d) => Runs(s, u) && d in s.ds && s.ds[d].on == OnShrink(u)
    case ShrinkKill(u, d) => Runs(s, u) && d in s.ds && s.ds[d].on == OnShrink(u) && s.ds[d].count == 0
    case Unhash(d) => d in s.ds
  }

  function Do(s: State, e: Event): State
    requires Guard(s, e)
  {
    match e
    case Create(d, h) => Set(s, d, Dentry(1, 1, false, false, false, false, h, Nowhere, 0))
    case GetRef(d) => Set(s, d, s.ds[d].(count := s.ds[d].count + 1, refs := s.ds[d].refs + 1))
    case FastPut(t, d) =>
      var r := Set(s, d, s.ds[d].(count := s.ds[d].count - 1, refs := s.ds[d].refs - 1));
      if r.ds[d].count == 0 then r.(pc := s.pc[t := PutZero(d)]) else r
    case ZeroDone(t) => s.(pc := s.pc[t := Idle])
    case ZeroReget(t) =>
      var d := s.pc[t].d;
      Set(s, d, s.ds[d].(count := 1, refs := s.ds[d].refs + 1)).(pc := s.pc[t := Idle])
    case SlowPut(t, d, keep) =>
      if s.ds[d].count != 1 || keep then
        var r := Set(s, d, s.ds[d].(count := s.ds[d].count - 1, refs := s.ds[d].refs - 1));
        if s.ds[d].count != 1 then r
        else if !r.ds[d].lru then LruAdd(r, d) else Set(r, d, r.ds[d].(referenced := true))
      else KillFirst(s, t, d)
    case LastSection(t) =>
      var d := s.pc[t].d;
      if s.ds[d].shrink then
        Set(s, d, s.ds[d].(mayFree := true)).(pc := s.pc[t := Idle], own := s.own - {d})
      else s.(pc := s.pc[t := Freeing(d)])
    case Free(t) =>
      var d := s.pc[t].d;
      Set(s, d, s.ds[d].(freed := s.ds[d].freed + 1)).(pc := s.pc[t := Idle], own := s.own - {d})
    case LruWalk(u, d) =>
      if s.ds[d].count != 0 then LruDel(s, d)
      else if s.ds[d].referenced then Set(s, d, s.ds[d].(referenced := false))
      else ShrinkMove(s, d, u)
    case LruWalkAll(u, d) => ShrinkMove(s, d, u)
    case Collect(u, d) =>
      var r := if s.ds[d].lru then LruDel(s, d) else s;
      if r.ds[d].count == 0 then ShrinkAdd(r, d, u) else r
    case ShrinkGiveUp(u, d) =>
      var r := ShrinkDel(s, d);
      if s.ds[d].count < 0 && s.ds[d].mayFree then r.(pc := s.pc[u := Freeing(d)], own := s.own[d := u]) else r
    case ShrinkKill(u, d) => KillFirst(ShrinkDel(s, d), u, d)
    case Unhash(d) => Set(s, d, s.ds[d].(hashed := false))
  }

  // ---- the invariant ----

  /** Where a thread that will finish dentry `d` stands. */
  ghost predicate OwnedBy(s: State, d: Did) {
    d in s.own && s.own[d] in s.pc && (s.pc[s.own[d]] == KillLast(d) || s.pc[s.own[d]] == Freeing(d))
  }

  /** The flags tell the list. */
  predicate FlagsOk(e: Dentry) {
    && e.lru == !e.on.Nowhere?
    && e.shrink == e.on.OnShrink?
  }

  /** A dead dentry is in exactly one stage; who frees it is settled in each. */
  ghost predicate StageOk(s: State, d: Did)
    requires d in s.ds
  {
    var e := s.ds[d];
    if e.count >= 0 then e.count == e.refs && e.freed == 0 && !e.mayFree && d !in s.own
    else
      && e.refs == 0 && !e.on.OnLru?
      && if d in s.own && OwnedBy(s, d) && s.pc[s.own[d]].KillLast? then e.freed == 0 && !e.mayFree
         else if d in s.own then OwnedBy(s, d) && e.freed == 0 && e.on.Nowhere?
         else if e.on.OnShrink? then e.mayFree && e.freed == 0
         else e.freed == 1
  }

  predicate Finishing(s: State, t: Tid) { t in s.pc && (s.pc[t].KillLast? || s.pc[t].Freeing?) }

  ghost predicate PcOk(s: State, t: Tid)
    requires t in s.pc
  {
    Finishing(s, t) ==> s.pc[t].d in s.ds && s.pc[t].d in s.own && s.own[s.pc[t].d] == t
  }

  function LruSet(ds: map<Did, Dentry>): set<Did> { set d | d in ds && ds[d].lru }

  ghost predicate Good(s: State) {
    && (forall d :: d in s.ds ==> FlagsOk(s.ds[d]))
    && (forall d {:trigger StageOk(s, d)} :: d in s.ds ==> StageOk(s, d))
    && (forall t {:trigger PcOk(s, t)} :: t in s.pc ==> PcOk(s, t))
    && (forall d :: d in s.own ==> d in s.ds)
    && s.nr == |LruSet(s.ds)|
    && !s.warned
  }

  // ---- every event keeps it ----

  lemma LruSetUpdate(ds: map<Did, Dentry>, d: Did, e: Dentry)
    ensures |LruSet(ds[d := e])| == |LruSet(ds)| + (if e.lru then 1 else 0) - (if d in ds && ds[d].lru then 1 else 0)
  {
    var was := d in ds && ds[d].lru;
    if e.lru && !was {
      assert LruSet(ds[d := e]) == LruSet(ds) + {d};
    } else if !e.lru && was {
      assert LruSet(ds[d := e]) == LruSet(ds) - {d};
    } else {
      assert LruSet(ds[d := e]) == LruSet(ds);
    }
  }

  /** Only dentry `d` and thread `t` change. */
  ghost predicate Local(s: State, r: State, t: Tid, d: Did) {
    && d in r.ds && r.ds == s.ds[d := r.ds[d]]
    && (r.pc == s.pc || (t in s.pc && t in r.pc && r.pc == s.pc[t := r.pc[t]]))
    && (forall x :: x != d ==> (x in r.own <==> x in s.own))
    && (forall x :: x != d && x in r.own ==> r.own[x] == s.own[x])
  }

  lemma LocalKeeps(s: State, r: State, t: Tid, d: Did)
    requires Good(s) && Local(s, r, t, d) && !r.warned
    requires FlagsOk(r.ds[d]) && StageOk(r, d) && (t in r.pc ==> PcOk(r, t))
    requires forall u :: Finishing(s, u) && u != t && s.pc[u].d == d ==> d in r.own && r.own[d] == u
    requires r.pc == s.pc || (Finishing(s, t) ==> s.pc[t].d == d)
    requires r.nr == s.nr + (if r.ds[d].lru then 1 else 0) - (if d in s.ds && s.ds[d].lru then 1 else 0)
    ensures Good(r)
  {
    LruSetUpdate(s.ds, d, r.ds[d]);
    forall x | x in r.ds ensures StageOk(r, x) {
      if x != d { StageElsewhere(s, r, t, d, x); }
    }
    forall u | u in r.pc ensures PcOk(r, u) {
      if u != t { assert PcOk(s, u); }
    }
  }

  lemma StageElsewhere(s: State, r: State, t: Tid, d: Did, x: Did)
    requires Good(s) && Local(s, r, t, d) && x in s.ds && x != d
    requires r.pc == s.pc || (Finishing(s, t) ==> s.pc[t].d == d)
    ensures StageOk(r, x)
  {
    assert StageOk(s, x);
    if x in s.own && s.own[x] == t { assert r.own[x] == s.own[x]; }
  }

  /** Nobody finishes a dentry it does not own. */
  lemma FinisherOwns(s: State, u: Tid)
    requires Good(s) && Finishing(s, u)
    ensures s.pc[u].d in s.own && s.own[s.pc[u].d] == u
  {
    assert PcOk(s, u);
  }

  /** Steps that leave the threads alone and change one dentry. */
  lemma DentryStepKeeps(s: State, r: State, d: Did)
    requires Good(s) && d in r.ds && r == s.(ds := s.ds[d := r.ds[d]], nr := r.nr)
    requires FlagsOk(r.ds[d]) && StageOk(r, d)
    requires r.nr == s.nr + (if r.ds[d].lru then 1 else 0) - (if d in s.ds && s.ds[d].lru then 1 else 0)
    ensures Good(r)
  {
    forall u | Finishing(s, u) ensures s.pc[u].d in s.own && s.own[s.pc[u].d] == u { FinisherOwns(s, u); }
    if 0 in s.pc { assert PcOk(s, 0); }
    LocalKeeps(s, r, 0, d);
  }

  /** Steps of a thread that is not finishing any dentry, before or after. */
  lemma ThreadStepKeeps(s: State, r: State, t: Tid, d: Did)
    requires Good(s) && d in s.ds && t in s.pc && t in r.pc && !Finishing(s, t) && !Finishing(r, t)
    requires d in r.ds && r == s.(ds := s.ds[d := r.ds[d]], nr := r.nr, pc := s.pc[t := r.pc[t]])
    requires FlagsOk(r.ds[d]) && StageOk(r, d)
    requires r.nr == s.nr + (if r.ds[d].lru then 1 else 0) - (if s.ds[d].lru then 1 else 0)
    ensures Good(r)
  {
    forall u | Finishing(s, u) ensures s.pc[u].d in s.own && s.own[s.pc[u].d] == u { FinisherOwns(s, u); }
    LocalKeeps(s, r, t, d);
  }

  lemma CreateKeeps(s: State, d: Did, h: bool)
    requires Good(s) && Guard(s, Create(d, h))
    ensures Good(Do(s, Create(d, h)))
  {
    DentryStepKeeps(s, Do(s, Create(d, h)), d);
  }

  lemma GetRefKeeps(s: State, d: Did)
    requires Good(s) && Guard(s, GetRef(d))
    ensures Good(Do(s, GetRef(d)))
  {
    assert StageOk(s, d);
    DentryStepKeeps(s, Do(s, GetRef(d)), d);
  }

  lemma UnhashKeeps(s: State, d: Did)
    requires Good(s) && Guard(s, Unhash(d))
    ensures Good(Do(s, Unhash(d)))
  {
    assert StageOk(s, d);
    DentryStepKeeps(s, Do(s, Unhash(d)), d);
  }

  lemma FastPutKeeps(s: State, t: Tid, d: Did)
    requires Good(s) && Guard(s, FastPut(t, d))
    ensures Good(Do(s, FastPut(t, d)))
  {
    assert StageOk(s, d);
    assert s.pc == s.pc[t := s.pc[t]];
    ThreadStepKeeps(s, Do(s, FastPut(t, d)), t, d);
  }

  lemma ZeroDoneKeeps(s: State, t: Tid)
    requires Good(s) && Guard(s, ZeroDone(t))
    ensures Good(Do(s, ZeroDone(t)))
  {
    var d := s.pc[t].d;
    assert StageOk(s, d);
    if d in s.own { FinisherIsFinishing(s, d); }
    assert s.ds == s.ds[d := s.ds[d]];
    ThreadStepKeeps(s, Do(s, ZeroDone(t)), t, d);
  }

  lemma FinisherIsFinishing(s: State, d: Did)
    requires Good(s) && d in s.own
    ensures Finishing(s, s.own[d])
  {
    assert StageOk(s, d);
  }

  lemma ZeroRegetKeeps(s: State, t: Tid)
    requires Good(s) && Guard(s, ZeroReget(t))
    ensures Good(Do(s, ZeroReget(t)))
  {
    var d := s.pc[t].d;
    assert StageOk(s, d);
    ThreadStepKeeps(s, Do(s, ZeroReget(t)), t, d);
  }

  /** Killing starts with a live dentry that is on a shrink list or on none once it is off the LRU. */
  lemma KillFirstKeeps(s: State, t: Tid, d: Did)
    requires Good(s) && Runs(s, t) && d in s.ds && s.ds[d].count >= 0
    ensures Good(KillFirst(s, t, d))
  {
    var r := KillFirst(s, t, d);
    assert StageOk(s, d);
    forall u | Finishing(s, u) ensures s.pc[u].d in s.own && s.own[s.pc[u].d] == u { FinisherOwns(s, u); }
    LocalKeeps(s, r, t, d);
  }

  lemma SlowPutKeeps(s: State, t: Tid, d: Did, keep: bool)
    requires Good(s) && Guard(s, SlowPut(t, d, keep))
    ensures Good(Do(s, SlowPut(t, d, keep)))
  {
    assert StageOk(s, d);
    if s.ds[d].count != 1 || keep {
      DentryStepKeeps(s, Do(s, SlowPut(t, d, keep)), d);
    } else {
      KillFirstKeeps(s, t, d);
    }
  }

  /** The last section: whoever still has the dentry on a shrink list will free it, otherwise the killer will. */
  lemma LastSectionKeeps(s: State, t: Tid)
    requires Good(s) && Guard(s, LastSection(t))
    ensures Good(Do(s, LastSection(t)))
  {
    var d := s.pc[t].d;
    FinisherOwns(s, t);
    assert StageOk(s, d);
    forall u | Finishing(s, u) ensures s.pc[u].d in s.own && s.own[s.pc[u].d] == u { FinisherOwns(s, u); }
    LocalKeeps(s, Do(s, LastSection(t)), t, d);
  }

  lemma FreeKeeps(s: State, t: Tid)
    requires Good(s) && Guard(s, Free(t))
    ensures Good(Do(s, Free(t)))
  {
    var d := s.pc[t].d;
    FinisherOwns(s, t);
    assert StageOk(s, d);
    forall u | Finishing(s, u) ensures s.pc[u].d in s.own && s.own[s.pc[u].d] == u { FinisherOwns(s, u); }
    LocalKeeps(s, Do(s, Free(t)), t, d);
  }

  lemma LruWalkKeeps(s: State, u: Tid, d: Did)
    requires Good(s) && Guard(s, LruWalk(u, d))
    ensures Good(Do(s, LruWalk(u, d))) && Good(Do(s, LruWalkAll(u, d)))
  {
    assert StageOk(s, d);
    DentryStepKeeps(s, Do(s, LruWalk(u, d)), d);
    DentryStepKeeps(s, Do(s, LruWalkAll(u, d)), d);
  }

  lemma CollectKeeps(s: State, u: Tid, d: Did)
    requires Good(s) && Guard(s, Collect(u, d))
    ensures Good(Do(s, Collect(u, d)))
  {
    assert StageOk(s, d);
    DentryStepKeeps(s, Do(s, Collect(u, d)), d);
  }

  /** Off the shrink list: the shrinker frees what the killer has parked, and only that. */
  lemma ShrinkGiveUpKeeps(s: State, u: Tid, d: Did)
    requires Good(s) && Guard(s, ShrinkGiveUp(u, d))
    ensures Good(Do(s, ShrinkGiveUp(u, d)))
  {
    assert StageOk(s, d);
    forall v | Finishing(s, v) ensures s.pc[v].d in s.own && s.own[s.pc[v].d] == v { FinisherOwns(s, v); }
    assert s.pc == s.pc[u := s.pc[u]];
    LocalKeeps(s, Do(s, ShrinkGiveUp(u, d)), u, d);
  }

  lemma ShrinkKillKeeps(s: State, u: Tid, d: Did)
    requires Good(s) && Guard(s, ShrinkKill(u, d))
    ensures Good(Do(s, ShrinkKill(u, d)))
  {
    assert StageOk(s, d);
    DentryStepKeeps(s, ShrinkDel(s, d), d);
    KillFirstKeeps(ShrinkDel(s, d), u, d);
  }

  lemma EventKeeps(s: State, e: Event)
    requires Good(s) && Guard(s, e)
    ensures Good(Do(s, e))
  {
    match e
    case Create(d, h) => CreateKeeps(s, d, h);
    case GetRef(d) => GetRefKeeps(s, d);
    case FastPut(t, d) => FastPutKeeps(s, t, d);
    case ZeroDone(t) => ZeroDoneKeeps(s, t);
    case ZeroReget(t) => ZeroRegetKeeps(s, t);
    case SlowPut(t, d, keep) => SlowPutKeeps(s, t, d, keep);
    case LastSection(t) => LastSectionKeeps(s, t);
    case Free(t) => FreeKeeps(s, t);
    case LruWalk(u, d) => LruWalkKeeps(s, u, d);
    case LruWalkAll(u, d) => LruWalkKeeps(s, u, d);
    case Collect(u, d) => CollectKeeps(s, u, d);
    case ShrinkGiveUp(u, d) => ShrinkGiveUpKeeps(s, u, d);
    case ShrinkKill(u, d) => ShrinkKillKeeps(s, u, d);
    case Unhash(d) => UnhashKeeps(s, d);
  }

  // ---- whole runs ----

  predicate Init(s: State) {
    s.ds == map[] && s.nr == 0 && s.own == map[] && !s.warned && forall t :: t in s.pc ==> s.pc[t].Idle?
  }

  ghost predicate Run(s: State, es: seq<Event>, r: State)
    decreases |es|
  {
    if es == [] then r == s
    else Guard(s, es[0]) && Run(Do(s, es[0]), es[1..], r)
  }

  lemma {:induction false} RunKeeps(s: State, es: seq<Event>, r: State)
    requires Good(s) && Run(s, es, r)
    ensures Good(r)
    decreases |es|
  {
    if es != [] {
      EventKeeps(s, es[0]);
      RunKeeps(Do(s, es[0]), es[1..], r);
    }
  }

  lemma InitIsGood(s: State)
    requires Init(s)
    ensures Good(s)
  {
    assert LruSet(s.ds) == {};
  }

  /** nr_dentry_unused counts the dentries flagged DCACHE_LRU_LIST, and no D_FLAG_VERIFY ever warns. */
  lemma UnusedIsExact(s: State, es: seq<Event>, r: State)
    requires Init(s) && Run(s, es, r)
    ensures r.nr == |LruSet(r.ds)| && !r.warned
  {
    InitIsGood(s);
    RunKeeps(s, es, r);
  }

  ghost predicate OthersStay(s: State, r: State, d: Did) {
    r.ds.Keys == s.ds.Keys && forall c :: c in s.ds && c != d ==> r.ds[c] == s.ds[c]
  }

  /** What dput under the lock does to a live dentry. */
  ghost predicate PutMeans(r: State, q: State, t: Tid, d: Did, keep: bool)
    requires d in r.ds && r.ds[d].refs > 0
  {
    && OthersStay(r, q, d) && d in q.ds && r.ds[d].count >= 1
    && if r.ds[d].count > 1 then q.ds[d] == r.ds[d].(count := r.ds[d].count - 1, refs := r.ds[d].refs - 1) && q.pc == r.pc
       else if keep then
         && q.ds[d].count == 0 && q.ds[d].refs == 0 && q.ds[d].hashed && !q.ds[d].on.Nowhere? && q.pc == r.pc
         && (q.ds[d].referenced <==> r.ds[d].referenced || !r.ds[d].on.Nowhere?)
       else
         q.ds[d].count < 0 && q.ds[d].refs == 0 && !q.ds[d].hashed && !q.ds[d].on.OnLru? && t in q.pc && q.pc[t] == KillLast(d)
  }

  lemma SlowPutMeans(r: State, t: Tid, d: Did, keep: bool)
    requires Guard(r, SlowPut(t, d, keep)) && r.ds[d].count == r.ds[d].refs && FlagsOk(r.ds[d])
    ensures PutMeans(r, Do(r, SlowPut(t, d, keep)), t, d, keep)
  {
  }

  /**
   * dput under the lock in any run.  A reference that is not the last only lowers the count.  With the last
   * one a dentry that retain_dentry keeps stays alive and hashed on a list of unused dentries, and any other is
   * dead and unhashed from then on, with this thread to finish it.
   */
  lemma LastPut(s: State, es: seq<Event>, r: State, t: Tid, d: Did, keep: bool)
    requires Init(s) && Run(s, es, r) && Guard(r, SlowPut(t, d, keep))
    ensures PutMeans(r, Do(r, SlowPut(t, d, keep)), t, d, keep)
  {
    InitIsGood(s);
    RunKeeps(s, es, r);
    assert StageOk(r, d) && FlagsOk(r.ds[d]);
    hide Do, PutMeans;
    SlowPutMeans(r, t, d, keep);
  }

  /** The LRU walk takes an unused dentry for the shrinker, spares one that was referenced once, and lets go of one in use. */
  lemma LruWalkSpares(s: State, es: seq<Event>, r: State, u: Tid, d: Did)
    requires Init(s) && Run(s, es, r) && Guard(r, LruWalk(u, d))
    ensures var q, e := Do(r, LruWalk(u, d)), r.ds[d];
            && OthersStay(r, q, d) && q.pc == r.pc && q.ds[d].count == e.count == q.ds[d].refs && q.ds[d].hashed == e.hashed
            && q.ds[d].on == (if e.count > 0 then Nowhere else if e.referenced then OnLru else OnShrink(u))
            && (q.ds[d].on.OnLru? ==> !q.ds[d].referenced)
  {
    InitIsGood(s);
    RunKeeps(s, es, r);
    assert StageOk(r, d) && FlagsOk(r.ds[d]);
  }

  /** No dentry is freed twice, while alive, or while a list or another thread still has it. */
  lemma FreedAtMostOnce(s: State, es: seq<Event>, r: State, d: Did)
    requires Init(s) && Run(s, es, r) && d in r.ds
    ensures r.ds[d].freed <= 1
    ensures r.ds[d].freed == 1 ==> r.ds[d].count < 0 && r.ds[d].on.Nowhere? && r.ds[d].refs == 0
    ensures r.ds[d].freed == 1 ==> forall t :: Finishing(r, t) ==> r.pc[t].d != d
  {
    InitIsGood(s);
    RunKeeps(s, es, r);
    assert StageOk(r, d);
    forall t | Finishing(r, t) ensures r.pc[t].d in r.own { FinisherOwns(r, t); }
  }

  /** Every killed dentry is freed: once nobody is finishing it and no shrink list has it, it has been freed exactly once. */
  lemma KilledIsFreedOnce(s: State, es: seq<Event>, r: State, d: Did)
    requires Init(s) && Run(s, es, r) && d in r.ds && r.ds[d].count < 0
    requires !r.ds[d].on.OnShrink? && forall t :: Finishing(r, t) ==> r.pc[t].d != d
    ensures r.ds[d].freed == 1
  {
    InitIsGood(s);
    RunKeeps(s, es, r);
    assert StageOk(r, d);
    if d in r.own { FinisherIsFinishing(r, d); }
  }

  /** Whoever calls dentry_free is alone with the dentry. */
  lemma FreeIsSafe(s: State, es: seq<Event>, r: State, t: Tid)
    requires Init(s) && Run(s, es, r) && Guard(r, Free(t))
    ensures var e := r.ds[r.pc[t].d]; e.freed == 0 && e.on.Nowhere? && e.refs == 0 && e.count < 0
    ensures forall u :: Finishing(r, u) && r.pc[u].d == r.pc[t].d ==> u == t
  {
    InitIsGood(s);
    RunKeeps(s, es, r);
    assert StageOk(r, r.pc[t].d);
    FinisherOwns(r, t);
    forall u | Finishing(r, u) ensures r.pc[u].d in r.own && r.own[r.pc[u].d] == u { FinisherOwns(r, u); }
  }
}
