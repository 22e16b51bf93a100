/**
 * The life of an inode (fs/inode.c): iget_locked, insert_inode_locked, igrab, iput, the LRU walk and
 * evict run by any number of threads.  Each event is one section under i_lock (with inode_hash_lock
 * for the hash), or one lock-free change of i_count.
 */
module InodeCache {
  import opened Common

  type Tid = nat
  type Iid = nat

  /** The list that i_lru is linked into: the superblock's LRU or a private list of doomed inodes. */
  datatype Where = Nowhere | OnLru | Doomed(u: Tid)

  /** `dirty` stands for every state bit that keeps a clean-up away (I_DIRTY_ALL and I_SYNC). */
  datatype Inode = Inode(sb: nat, ino: nat, hashed: bool, isNew: bool, creating: bool, willFree: bool, freeing: bool,
                         clear: bool, referenced: bool, dirty: bool, count: nat, on: Where, evicted: nat)

  datatype PC =
    | Idle
    | Writing(i: Iid)   // iput_final, inside write_inode_now with I_WILL_FREE set
    | Evicting(i: Iid)  // evict, before clear_inode
    | Cleared(i: Iid)   // evict, before remove_inode_hash
    | Removed(i: Iid)   // evict, before destroy_inode

  /** `nr` is nr_unused, `own` the thread that is getting rid of an inode, `bug` records a BUG_ON that fired. */
  datatype State = State(tab: map<Iid, Inode>, nr: int, pc: map<Tid, PC>, own: map<Iid, Tid>, bug: bool)

  datatype Event =
    | Alloc(i: Iid, sb: nat, ino: nat)
    | IgetInsert(i: Iid, sb: nat, ino: nat)
    | InsertLocked(i: Iid)
    | FindGet(i: Iid)
    | Igrab(i: Iid)
    | Ihold(i: Iid)
    | UnlockNew(i: Iid)
    | DiscardNew(i: Iid)
    | MarkDirty(i: Iid)
    | Cleaned(i: Iid, active: bool)
    | Unhash(i: Iid)
    | PutFast(i: Iid)
    | PutFinal(t: Tid, i: Iid, drop: bool, active: bool)
    | Written(t: Tid)
    | LruWalk(u: Tid, i: Iid, pages: bool)
    | Dispose(u: Tid, i: Iid)
    | EvictClear(t: Tid)
    | EvictUnhash(t: Tid)
    | EvictDestroy(t: Tid)

  predicate Live(n: Inode) { !n.freeing && !n.willFree }

  predicate HasKey(n: Inode, sb: nat, ino: nat) { n.sb == sb && n.ino == ino }

  predicate SameKey(n: Inode, m: Inode) { HasKey(n, m.sb, m.ino) }

  predicate Runs(s: State, t: Tid) { t in s.pc && s.pc[t].Idle? }

  predicate Finishing(s: State, t: Tid) { t in s.pc && !s.pc[t].Idle? }

  /** Whoever uses an inode without the hash or the LRU holds a reference to it. */
  predicate Held(s: State, i: Iid) { i in s.tab && s.tab[i].count > 0 }

  predicate Guard(s: State, e: Event) {
    match e
    case Alloc(i, _, _) => i !in s.tab
    case IgetInsert(i, sb, ino) => i !in s.tab && forall j :: j in s.tab && s.tab[j].hashed ==> !HasKey(s.tab[j], sb, ino)
    case InsertLocked(i) =>
      && Held(s, i) && !s.tab[i].hashed
      && forall j :: j in s.tab && s.tab[j].hashed && SameKey(s.tab[j], s.tab[i]) ==> !Live(s.tab[j])
    case FindGet(i) => i in s.tab && s.tab[i].hashed && Live(s.tab[i]) && !s.tab[i].creating
    case Igrab(i) => i in s.tab && Live(s.tab[i])
    case Ihold(i) => Held(s, i)
    case UnlockNew(i) => Held(s, i)
    case DiscardNew(i) => Held(s, i)
    case MarkDirty(i) => Held(s, i)
    case Cleaned(i, _) => i in s.tab && !s.tab[i].freeing
    case Unhash(i) => i in s.tab && !s.tab[i].freeing
    case PutFast(i) => i in s.tab && s.tab[i].count > 1
    case PutFinal(t, i, _, _) => Runs(s, t) && i in s.tab && s.tab[i].count == 1
    case Written(t) => t in s.pc && s.pc[t].Writing? && s.pc[t].i in s.tab
    case LruWalk(u, i, _) => Runs(s, u) && i in s.tab && s.tab[i].on.OnLru?
    case Dispose(u, i) => Runs(s, u) && i in s.tab && s.tab[i].on == Doomed(u)
    case EvictClear(t) => t in s.pc && s.pc[t].Evicting? && s.pc[t].i in s.tab
    case EvictUnhash(t) => t in s.pc && s.pc[t].Cleared? && s.pc[t].i in s.tab
    case EvictDestroy(t) => t in s.pc && s.pc[t].Removed? && s.pc[t].i in s.tab
  }

  function Set(s: State, i: Iid, n: Inode): State { s.(tab := s.tab[i := n]) }

  function AddLru(s: State, i: Iid, active: bool): State
    requires i in s.tab
  {
    var n := s.tab[i];
    if n.dirty || !Live(n) || n.count > 0 || !active then s
    else if n.on.Nowhere? then Set(s, i, n.(on := OnLru)).(nr := s.nr + 1)
    else Set(s, i, n.(referenced := true))
  }

  /** The end of iput_final: I_FREEING, off the LRU, on to evict. */
  function StartFreeing(s: State, t: Tid, i: Iid): State
    requires i in s.tab
  {
    var n := s.tab[i].(willFree := false, freeing := true);
    var r := if n.on.OnLru? then Set(s, i, n.(on := Nowhere)).(nr := s.nr - 1) else Set(s, i, n);
    r.(pc := s.pc[t := Evicting(i)], own := s.own[i := t])
  }

  function Do(s: State, e: Event): State
    requires Guard(s, e)
  {
    match e
    case Alloc(i, sb, ino) => Set(s, i, Inode(sb, ino, false, false, false, false, false, false, false, false, 1, Nowhere, 0))
    case IgetInsert(i, sb, ino) => Set(s, i, Inode(sb, ino, true, true, false, false, false, false, false, false, 1, Nowhere, 0))
    case InsertLocked(i) => Set(s, i, s.tab[i].(isNew := true, creating := true, hashed := true))
    case FindGet(i) => Set(s, i, s.tab[i].(count := s.tab[i].count + 1))
    case Igrab(i) => Set(s, i, s.tab[i].(count := s.tab[i].count + 1))
    case Ihold(i) => Set(s, i, s.tab[i].(count := s.tab[i].count + 1))
    case UnlockNew(i) => Set(s, i, s.tab[i].(isNew := false, creating := false))
    case DiscardNew(i) => Set(s, i, s.tab[i].(isNew := false))
    case MarkDirty(i) => Set(s, i, s.tab[i].(dirty := true))
    case Cleaned(i, active) => AddLru(Set(s, i, s.tab[i].(dirty := false)), i, active)
    case Unhash(i) => Set(s, i, s.tab[i].(hashed := false))
    case PutFast(i) => Set(s, i, s.tab[i].(count := s.tab[i].count - 1))
    case PutFinal(t, i, drop, active) =>
      var r := Set(s, i, s.tab[i].(count := 0));
      if !drop && active then AddLru(r, i, active)
      else if !drop then
        Set(r, i, r.tab[i].(willFree := true)).(pc := s.pc[t := Writing(i)], own := s.own[i := t])
      else StartFreeing(r, t, i)
    case Written(t) => StartFreeing(s, t, s.pc[t].i)
    case LruWalk(u, i, pages) =>
      var n := s.tab[i];
      if n.count > 0 || n.isNew || n.creating || !Live(n) || n.clear || n.dirty then
        Set(s, i, n.(on := Nowhere)).(nr := s.nr - 1)
      else if n.referenced then Set(s, i, n.(referenced := false))
      else if pages then Set(s, i, n.(count := 1))
      else Set(s, i, n.(freeing := true, on := Doomed(u))).(nr := s.nr - 1)
    case Dispose(u, i) =>
      Set(s, i, s.tab[i].(on := Nowhere)).(pc := s.pc[u := Evicting(i)], own := s.own[i := u])
    case EvictClear(t) =>
      var i := s.pc[t].i;
      var n := s.tab[i];
      Set(s, i, n.(isNew := false, creating := false, willFree := false, freeing := true, clear := true,
                   referenced := false, dirty := false))
      .(pc := s.pc[t := Cleared(i)], bug := s.bug || !n.freeing || n.clear || !n.on.Nowhere?)
    case EvictUnhash(t) =>
      var i := s.pc[t].i;
      Set(s, i, s.tab[i].(hashed := false)).(pc := s.pc[t := Removed(i)])
    case EvictDestroy(t) =>
      var i := s.pc[t].i;
      var n := s.tab[i];
      Set(s, i, n.(evicted := n.evicted + 1))
      .(pc := s.pc[t := Idle], own := s.own - {i},
        bug := s.bug || !n.freeing || !n.clear || n.isNew || n.creating || n.willFree || n.referenced || n.dirty)
  }

  // ---- the invariant ----

  /** What holds of an inode, given the thread that is getting rid of it, if any. */
  predicate StageOk(n: Inode, i: Iid, at: Option<PC>) {
    if at.None? then
      && !n.willFree
      && if !n.freeing then n.evicted == 0 && !n.on.Doomed? && !n.clear
         else if n.on.Doomed? then n.evicted == 0 && n.count == 0 && !n.clear
         else n.evicted == 1 && n.count == 0 && n.on.Nowhere? && !n.hashed
    else
      && n.count == 0 && n.evicted == 0
      && match at.value
         case Idle => false
         case Writing(j) => j == i && n.willFree && !n.freeing && !n.on.Doomed? && !n.clear
         case Evicting(j) => j == i && n.freeing && !n.willFree && n.on.Nowhere? && !n.clear
         case Cleared(j) => j == i && Bare(n)
         case Removed(j) => j == i && Bare(n) && !n.hashed
  }

  /** i_state is I_FREEING | I_CLEAR. */
  predicate Bare(n: Inode) {
    n.freeing && n.clear && !n.isNew && !n.creating && !n.willFree && !n.referenced && !n.dirty && n.on.Nowhere?
  }

  function At(s: State, i: Iid): Option<PC> {
    if i in s.own then (if s.own[i] in s.pc then Some(s.pc[s.own[i]]) else Some(Idle)) else None
  }

  ghost predicate InodeOk(s: State, i: Iid)
    requires i in s.tab
  {
    StageOk(s.tab[i], i, At(s, i))
  }

  ghost predicate PcOk(s: State, t: Tid)
    requires t in s.pc
  {
    Finishing(s, t) ==> s.pc[t].i in s.tab && s.pc[t].i in s.own && s.own[s.pc[t].i] == t
  }

  predicate Hot(n: Inode) { n.hashed && Live(n) }

  /** The property: live hashed inodes have distinct keys. */
  ghost predicate NoTwins(tab: map<Iid, Inode>) {
    forall i, j :: i in tab && j in tab && Hot(tab[i]) && Hot(tab[j]) && SameKey(tab[i], tab[j]) ==> i == j
  }

  function LruSet(tab: map<Iid, Inode>): set<Iid> { set i | i in tab && tab[i].on.OnLru? }

  ghost predicate Good(s: State) {
    && (forall i {:trigger InodeOk(s, i)} :: i in s.tab ==> InodeOk(s, i))
    && (forall t {:trigger PcOk(s, t)} :: t in s.pc ==> PcOk(s, t))
    && (forall i :: i in s.own ==> i in s.tab)
    && NoTwins(s.tab)
    && s.nr == |LruSet(s.tab)|
    && !s.bug
  }

  // ---- every event keeps it ----

  lemma LruSetUpdate(tab: map<Iid, Inode>, i: Iid, n: Inode)
    ensures |LruSet(tab[i := n])| == |LruSet(tab)| + (if n.on.OnLru? then 1 else 0) - (if i in LruSet(tab) then 1 else 0)
  {
    var before, after := LruSet(tab), LruSet(tab[i := n]);
    assert i in after <==> n.on.OnLru?;
    assert forall j :: j != i ==> (j in after <==> j in before);
    assert after - {i} == before - {i};
    assert |after| == |after - {i}| + if i in after then 1 else 0;
    assert |before| == |before - {i}| + if i in before then 1 else 0;
  }

  /** Inode `i` and thread `t` change; the inode stays as hot as it was or is the only one with its key. */
  ghost predicate Local(s: State, r: State, t: Tid, i: Iid) {
    && i in r.tab && r.tab == s.tab[i := r.tab[i]]
    && (r.pc == s.pc || (t in s.pc && t in r.pc && r.pc == s.pc[t := r.pc[t]]))
    && (r.own == s.own || r.own == s.own[i := t] || r.own == s.own - {i})
  }

  predicate AsHot(s: State, i: Iid, n: Inode) {
    Hot(n) ==> i in s.tab && Hot(s.tab[i]) && SameKey(s.tab[i], n)
  }

  lemma TwinsKept(s: State, i: Iid, n: Inode)
    requires NoTwins(s.tab)
    requires AsHot(s, i, n) || forall j :: j in s.tab && j != i && Hot(s.tab[j]) ==> !SameKey(s.tab[j], n)
    ensures NoTwins(s.tab[i := n])
  {
  }

  lemma LocalKeeps(s: State, r: State, t: Tid, i: Iid)
    requires Good(s) && Local(s, r, t, i) && !r.bug && NoTwins(r.tab)
    requires InodeOk(r, i) && (t in r.pc ==> PcOk(r, t))
    requires r.pc == s.pc || (Finishing(s, t) ==> s.pc[t].i == i)
    requires forall u :: Finishing(s, u) && u != t && s.pc[u].i == i ==> i in r.own && r.own[i] == u
    requires r.nr == s.nr + (if r.tab[i].on.OnLru? then 1 else 0) - (if i in s.tab && s.tab[i].on.OnLru? then 1 else 0)
    ensures Good(r)
  {
    LruSetUpdate(s.tab, i, r.tab[i]);
    forall j | j in r.tab ensures InodeOk(r, j) {
      if j != i { InodeElsewhere(s, r, t, i, j); }
    }
    forall u | u in r.pc ensures PcOk(r, u) {
      if u != t { assert PcOk(s, u); }
    }
  }

  lemma InodeElsewhere(s: State, r: State, t: Tid, i: Iid, j: Iid)
    requires Good(s) && Local(s, r, t, i) && j in s.tab && j != i
    requires r.pc == s.pc || (Finishing(s, t) ==> s.pc[t].i == i)
    ensures InodeOk(r, j)
  {
    assert InodeOk(s, j);
    assert j in r.own <==> j in s.own;
  }

  lemma FinishersOwn(s: State)
    requires Good(s)
    ensures forall u :: Finishing(s, u) ==> s.pc[u].i in s.own && s.own[s.pc[u].i] == u
  {
    forall u | Finishing(s, u) ensures s.pc[u].i in s.own && s.own[s.pc[u].i] == u { assert PcOk(s, u); }
  }

  /** Steps that leave the threads alone. */
  lemma InodeStepKeeps(s: State, r: State, i: Iid)
    requires Good(s) && i in r.tab && r == s.(tab := s.tab[i := r.tab[i]], nr := r.nr)
    requires InodeOk(r, i) && NoTwins(r.tab)
    requires r.nr == s.nr + (if r.tab[i].on.OnLru? then 1 else 0) - (if i in s.tab && s.tab[i].on.OnLru? then 1 else 0)
    ensures Good(r)
  {
    FinishersOwn(s);
    if 0 in s.pc { assert PcOk(s, 0); }
    LocalKeeps(s, r, 0, i);
  }

  lemma CreateKeeps(s: State, e: Event)
    requires Good(s) && Guard(s, e) && (e.Alloc? || e.IgetInsert?)
    ensures Good(Do(s, e))
  {
    TwinsKept(s, e.i, Do(s, e).tab[e.i]);
    InodeStepKeeps(s, Do(s, e), e.i);
  }

  lemma InsertLockedKeeps(s: State, i: Iid)
    requires Good(s) && Guard(s, InsertLocked(i))
    ensures Good(Do(s, InsertLocked(i)))
  {
    assert InodeOk(s, i);
    TwinsKept(s, i, Do(s, InsertLocked(i)).tab[i]);
    InodeStepKeeps(s, Do(s, InsertLocked(i)), i);
  }

  /** Steps on an inode somebody may use: counting, flags, the hash, the LRU. */
  lemma UseKeeps(s: State, e: Event)
    requires Good(s) && Guard(s, e)
    requires e.FindGet? || e.Igrab? || e.Ihold? || e.UnlockNew? || e.DiscardNew? || e.MarkDirty? || e.Unhash? || e.PutFast?
    ensures Good(Do(s, e))
  {
    assert InodeOk(s, e.i);
    TwinsKept(s, e.i, Do(s, e).tab[e.i]);
    InodeStepKeeps(s, Do(s, e), e.i);
  }

  lemma AddLruKeeps(s: State, i: Iid, active: bool)
    requires Good(s) && i in s.tab && !s.tab[i].freeing
    ensures Good(AddLru(s, i, active))
  {
    assert InodeOk(s, i);
    var r := AddLru(s, i, active);
    if r != s {
      TwinsKept(s, i, r.tab[i]);
      InodeStepKeeps(s, r, i);
    }
  }

  lemma CleanedKeeps(s: State, i: Iid, active: bool)
    requires Good(s) && Guard(s, Cleaned(i, active))
    ensures Good(Do(s, Cleaned(i, active)))
  {
    assert InodeOk(s, i);
    var m := Set(s, i, s.tab[i].(dirty := false));
    TwinsKept(s, i, m.tab[i]);
    InodeStepKeeps(s, m, i);
    AddLruKeeps(m, i, active);
  }

  /** A thread takes inode `i` on, goes on with it, or is done with it. */
  lemma ThreadStepKeeps(s: State, r: State, t: Tid, i: Iid)
    requires Good(s) && t in s.pc && i in s.tab && Local(s, r, t, i) && !r.bug
    requires if Finishing(s, t) then s.pc[t].i == i else i !in s.own
    requires InodeOk(r, i) && (t in r.pc ==> PcOk(r, t)) && AsHot(s, i, r.tab[i])
    requires r.nr == s.nr + (if r.tab[i].on.OnLru? then 1 else 0) - (if s.tab[i].on.OnLru? then 1 else 0)
    ensures Good(r)
  {
    FinishersOwn(s);
    TwinsKept(s, i, r.tab[i]);
    LocalKeeps(s, r, t, i);
  }

  lemma PutFinalKeeps(s: State, t: Tid, i: Iid, drop: bool, active: bool)
    requires Good(s) && Guard(s, PutFinal(t, i, drop, active))
    ensures Good(Do(s, PutFinal(t, i, drop, active)))
  {
    assert InodeOk(s, i);
    var r := Do(s, PutFinal(t, i, drop, active));
    if !drop && active {
      var m := Set(s, i, s.tab[i].(count := 0));
      TwinsKept(s, i, m.tab[i]);
      InodeStepKeeps(s, m, i);
      AddLruKeeps(m, i, active);
    } else {
      ThreadStepKeeps(s, r, t, i);
    }
  }

  lemma WrittenKeeps(s: State, t: Tid)
    requires Good(s) && Guard(s, Written(t))
    ensures Good(Do(s, Written(t)))
  {
    FinishersOwn(s);
    assert InodeOk(s, s.pc[t].i);
    ThreadStepKeeps(s, Do(s, Written(t)), t, s.pc[t].i);
  }

  lemma LruWalkKeeps(s: State, u: Tid, i: Iid, pages: bool)
    requires Good(s) && Guard(s, LruWalk(u, i, pages))
    ensures Good(Do(s, LruWalk(u, i, pages)))
  {
    assert InodeOk(s, i);
    TwinsKept(s, i, Do(s, LruWalk(u, i, pages)).tab[i]);
    InodeStepKeeps(s, Do(s, LruWalk(u, i, pages)), i);
  }

  lemma DisposeKeeps(s: State, u: Tid, i: Iid)
    requires Good(s) && Guard(s, Dispose(u, i))
    ensures Good(Do(s, Dispose(u, i)))
  {
    assert InodeOk(s, i);
    ThreadStepKeeps(s, Do(s, Dispose(u, i)), u, i);
  }

  lemma EvictKeeps(s: State, e: Event)
    requires Good(s) && Guard(s, e) && (e.EvictClear? || e.EvictUnhash? || e.EvictDestroy?)
    ensures Good(Do(s, e))
  {
    var i := s.pc[e.t].i;
    FinishersOwn(s);
    assert InodeOk(s, i);
    ThreadStepKeeps(s, Do(s, e), e.t, i);
  }

  lemma EventKeeps(s: State, e: Event)
    requires Good(s) && Guard(s, e)
    ensures Good(Do(s, e))
  {
    match e
    case Alloc(_, _, _) => CreateKeeps(s, e);
    case IgetInsert(_, _, _) => CreateKeeps(s, e);
    case InsertLocked(i) => InsertLockedKeeps(s, i);
    case Cleaned(i, active) => CleanedKeeps(s, i, active);
    case PutFinal(t, i, drop, active) => PutFinalKeeps(s, t, i, drop, active);
    case Written(t) => WrittenKeeps(s, t);
    case LruWalk(u, i, pages) => LruWalkKeeps(s, u, i, pages);
    case Dispose(u, i) => DisposeKeeps(s, u, i);
    case EvictClear(_) => EvictKeeps(s, e);
    case EvictUnhash(_) => EvictKeeps(s, e);
    case EvictDestroy(_) => EvictKeeps(s, e);
    case _ => UseKeeps(s, e);
  }

  // ---- whole runs ----

  predicate Init(s: State) {
    s.tab == map[] && s.nr == 0 && s.own == map[] && !s.bug && forall t :: t in s.pc ==> s.pc[t].Idle?
  }

  ghost predicate Run(s: State, es: seq<Event>, r: State)
    decreases |es|
  {
    if es == [] then r == s
    else Guard(s, es[0]) && Run(Do(s, es[0]), es[1..], r)
  }

  lemma {:induction false} RunKeeps(s: State, es: seq<Event>, r: State)
    requires Good(s) && Run(s, es, r)
    ensures Good(r)
    decreases |es|
  {
    if es != [] {
      EventKeeps(s, es[0]);
      RunKeeps(Do(s, es[0]), es[1..], r);
    }
  }

  lemma InitIsGood(s: State)
    requires Init(s)
    ensures Good(s)
  {
  }

  /** Two hashed inodes of the same superblock and number are never both alive; no BUG_ON of evict fires. */
  lemma OneInodePerNumber(s: State, es: seq<Event>, r: State, i: Iid, j: Iid)
    requires Init(s) && Run(s, es, r) && i in r.tab && j in r.tab
    requires r.tab[i].hashed && Live(r.tab[i]) && r.tab[j].hashed && Live(r.tab[j])
    requires r.tab[i].sb == r.tab[j].sb && r.tab[i].ino == r.tab[j].ino
    ensures i == j && !r.bug
  {
    InitIsGood(s);
    RunKeeps(s, es, r);
  }

  /** nr_unused is the length of the LRU. */
  lemma UnusedIsExact(s: State, es: seq<Event>, r: State)
    requires Init(s) && Run(s, es, r)
    ensures r.nr == |LruSet(r.tab)|
  {
    InitIsGood(s);
    RunKeeps(s, es, r);
  }

  predicate IsFreeing(s: State, i: Iid) { i in s.tab && s.tab[i].freeing }

  lemma FreeingStaysInLru(s: State, j: Iid, t: Tid, active: bool, i: Iid)
    requires IsFreeing(s, i) && j in s.tab
    ensures IsFreeing(AddLru(s, j, active), i) && IsFreeing(StartFreeing(s, t, j), i)
  {
  }

  predicate IsFinal(e: Event) { e.LruWalk? || e.Dispose? || e.EvictClear? || e.EvictUnhash? || e.EvictDestroy? }

  lemma FreeingStaysFinal(s: State, e: Event, i: Iid)
    requires Guard(s, e) && IsFreeing(s, i) && IsFinal(e)
    ensures IsFreeing(Do(s, e), i)
  {
  }

  lemma FreeingStaysBusy(s: State, e: Event, i: Iid)
    requires Guard(s, e) && IsFreeing(s, i) && !IsFinal(e)
    ensures IsFreeing(Do(s, e), i)
  {
    hide AddLru, StartFreeing;
    match e {
      case Cleaned(j, active) => FreeingStaysInLru(Set(s, j, s.tab[j].(dirty := false)), j, 0, active, i);
      case PutFinal(t, j, _, active) => FreeingStaysInLru(Set(s, j, s.tab[j].(count := 0)), j, t, active, i);
      case Written(t) => FreeingStaysInLru(s, s.pc[t].i, t, true, i);
      case _ =>
    }
  }

  /** No event clears I_FREEING. */
  lemma FreeingStaysOnce(s: State, e: Event, i: Iid)
    requires Guard(s, e) && IsFreeing(s, i)
    ensures IsFreeing(Do(s, e), i)
  {
    hide Do, Guard;
    if IsFinal(e) { FreeingStaysFinal(s, e, i); } else { FreeingStaysBusy(s, e, i); }
  }

  /** Once I_FREEING is set, whatever the threads do, the inode gets no reference and never returns to the LRU. */
  lemma {:induction false} FreeingIsForever(s: State, es: seq<Event>, r: State, i: Iid)
    requires Good(s) && Run(s, es, r) && i in s.tab && s.tab[i].freeing
    ensures i in r.tab && r.tab[i].freeing && r.tab[i].count == 0 && !r.tab[i].on.OnLru?
    decreases |es|
  {
    assert InodeOk(s, i);
    if es != [] {
      EventKeeps(s, es[0]);
      FreeingStaysOnce(s, es[0], i);
      FreeingIsForever(Do(s, es[0]), es[1..], r, i);
    }
  }

  ghost predicate OthersStay(s: State, r: State, i: Iid) {
    r.tab.Keys == s.tab.Keys && forall j :: j in s.tab && j != i ==> r.tab[j] == s.tab[j]
  }

  lemma StartFreeingIs(s: State, t: Tid, i: Iid)
    requires i in s.tab
    ensures var q, n := StartFreeing(s, t, i), s.tab[i];
            && OthersStay(s, q, i) && q.tab[i] == n.(willFree := false, freeing := true, on := if n.on.OnLru? then Nowhere else n.on)
            && q.pc == s.pc[t := Evicting(i)]
  {
  }

  lemma PutDrops(s: State, t: Tid, i: Iid, active: bool)
    requires Guard(s, PutFinal(t, i, true, active)) && !s.tab[i].on.Doomed? && !s.tab[i].willFree
    ensures var q := Do(s, PutFinal(t, i, true, active));
            && OthersStay(s, q, i) && q.tab[i] == s.tab[i].(count := 0, freeing := true, on := Nowhere)
            && q.pc == s.pc[t := Evicting(i)]
  {
    hide StartFreeing;
    StartFreeingIs(Set(s, i, s.tab[i].(count := 0)), t, i);
  }

  lemma PutRetains(s: State, t: Tid, i: Iid)
    requires Guard(s, PutFinal(t, i, false, true)) && Live(s.tab[i]) && !s.tab[i].on.Doomed?
    ensures var q, n := Do(s, PutFinal(t, i, false, true)), s.tab[i].(count := 0);
            && q.pc == s.pc && OthersStay(s, q, i)
            && q.tab[i] == if n.dirty then n else if n.on.OnLru? then n.(referenced := true) else n.(on := OnLru)
  {
  }

  lemma PutWrites(s: State, t: Tid, i: Iid)
    requires Guard(s, PutFinal(t, i, false, false))
    ensures var q := Do(s, PutFinal(t, i, false, false));
            && OthersStay(s, q, i) && q.tab[i] == s.tab[i].(count := 0, willFree := true)
            && q.pc == s.pc[t := Writing(i)]
  {
  }

  /**
   * The last iput in any run.  An inode to be dropped is marked for freeing and evicted by this thread.
   * Otherwise, on an active superblock, it stays alive and hashed as it was, on the LRU unless it is dirty;
   * on a superblock that is going away it is written out first.
   */
  lemma LastPut(s: State, es: seq<Event>, r: State, t: Tid, i: Iid, drop: bool, active: bool)
    requires Init(s) && Run(s, es, r) && Guard(r, PutFinal(t, i, drop, active))
    ensures var q := Do(r, PutFinal(t, i, drop, active));
            && OthersStay(r, q, i) && q.tab[i].count == 0 && SameKey(r.tab[i], q.tab[i]) && q.tab[i].hashed == r.tab[i].hashed
            && if drop then q.tab[i].freeing && !q.tab[i].on.OnLru? && t in q.pc && q.pc[t] == Evicting(i)
               else if active then
                 && Live(q.tab[i]) && q.pc == r.pc && q.tab[i].dirty == r.tab[i].dirty
                 && (q.tab[i].on.OnLru? <==> !r.tab[i].dirty || r.tab[i].on.OnLru?)
               else q.tab[i].willFree && !q.tab[i].freeing && t in q.pc && q.pc[t] == Writing(i)
  {
    InitIsGood(s);
    RunKeeps(s, es, r);
    assert InodeOk(r, i);
    hide Good, Do, OthersStay, NoTwins, LruSet;
    if drop {
      PutDrops(r, t, i, active);
    } else if active {
      PutRetains(r, t, i);
    } else {
      PutWrites(r, t, i);
    }
  }

  /** An inode that is in use, dirty, locked or recently referenced survives the LRU walk; only an idle one is marked for freeing. */
  lemma LruWalkSpares(s: State, u: Tid, i: Iid, pages: bool)
    requires Guard(s, LruWalk(u, i, pages))
    ensures var q, n := Do(s, LruWalk(u, i, pages)), s.tab[i];
            var busy := n.count > 0 || n.isNew || n.creating || !Live(n) || n.clear || n.dirty;
            && OthersStay(s, q, i) && q.tab[i].hashed == n.hashed
            && (q.tab[i].on == Doomed(u) <==> !busy && !n.referenced && !pages)
            && (q.tab[i].on == Doomed(u) ==> q.tab[i].freeing && q.tab[i].count == 0)
            && (q.tab[i].on != Doomed(u) ==> q.tab[i].freeing == n.freeing && q.tab[i].willFree == n.willFree)
            && (busy ==> q.tab[i].on.Nowhere? && q.tab[i].count == n.count)
            && (!busy && n.referenced ==> q.tab[i].on.OnLru? && !q.tab[i].referenced)
            && (!busy && !n.referenced && pages ==> q.tab[i].on.OnLru? && q.tab[i].count == 1)
  {
  }

  /** An inode is evicted at most once, and then it is unhashed, off all lists and unreferenced. */
  lemma EvictedAtMostOnce(s: State, es: seq<Event>, r: State, i: Iid)
    requires Init(s) && Run(s, es, r) && i in r.tab
    ensures r.tab[i].evicted <= 1
    ensures r.tab[i].evicted == 1 ==> r.tab[i].count == 0 && r.tab[i].on.Nowhere? && !r.tab[i].hashed && r.tab[i].freeing
  {
    InitIsGood(s);
    RunKeeps(s, es, r);
    assert InodeOk(r, i);
  }

  /** Every inode marked for freeing is evicted: once no thread and no private list has it, it has been evicted exactly once. */
  lemma FreedIsEvictedOnce(s: State, es: seq<Event>, r: State, i: Iid)
    requires Init(s) && Run(s, es, r) && i in r.tab && !Live(r.tab[i])
    requires !r.tab[i].on.Doomed? && forall t :: Finishing(r, t) ==> r.pc[t].i != i
    ensures r.tab[i].evicted == 1
  {
    InitIsGood(s);
    RunKeeps(s, es, r);
    assert InodeOk(r, i);
  }

  /** Two threads never get rid of the same inode. */
  lemma EvictionIsExclusive(s: State, es: seq<Event>, r: State, t: Tid, u: Tid)
    requires Init(s) && Run(s, es, r) && Finishing(r, t) && Finishing(r, u) && r.pc[t].i == r.pc[u].i
    ensures t == u
  {
    InitIsGood(s);
    RunKeeps(s, es, r);
    FinishersOwn(r);
  }
}
