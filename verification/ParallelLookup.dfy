/**
 * Parallel lookups in one directory cache (d_alloc_parallel, __d_add and __d_lookup_done in
 * fs/dcache.c).  Any number of threads hold their parent directories shared.  Each event is one
 * atomic step: one access to i_dir_seq, one section under a chain lock, one change of the hash.
 * A lock-free hash walk lasts from BeginLookup to LookupHit or LookupMiss; it may miss an entry that
 * was hashed after it began, but not one that stayed hashed throughout.
 */
module ParallelLookup {
  type Tid = nat
  type Did = nat
  type Dir = nat
  type Name = nat

  datatype Dentry = Dentry(dir: Dir, name: Name, inLookup: bool, hashed: bool)

  datatype PC =
    | Idle
    | Start(dir: Dir, name: Name, mine: Did)                            // has a fresh dentry; `retry:`
    | SeqRead(dir: Dir, name: Name, mine: Did, sq: nat)                 // read i_dir_seq
    | Looking(dir: Dir, name: Name, mine: Did, sq: nat, must: set<Did>) // inside __d_lookup_rcu
    | Missed(dir: Dir, name: Name, mine: Did, sq: nat)                  // __d_lookup_rcu returned NULL
    | Locked(dir: Dir, name: Name, mine: Did, sq: nat)                  // holds the chain lock
    | Checked(dir: Dir, name: Name, mine: Did, sq: nat)                 // i_dir_seq is unchanged
    | Waiting(dir: Dir, name: Name, mine: Did, other: Did)              // found `other` in lookup
    | Owner(dir: Dir, name: Name, mine: Did)                            // returned its own dentry, in lookup
    | Adding(dir: Dir, name: Name, mine: Did, n: nat)                   // past start_dir_add
    | Unlisted(dir: Dir, name: Name, mine: Did, n: nat)                 // past __d_lookup_done
    | Rehashed(dir: Dir, n: nat)                                        // past __d_rehash

  /**
   * `own` and `adder` record which thread holds a dentry that is not public yet, and which thread is
   * between start_dir_add and end_dir_add; `bucket` is in_lookup_hash.
   */
  datatype State = State(dentries: map<Did, Dentry>, seqs: map<Dir, nat>, locks: map<nat, Tid>, pc: map<Tid, PC>,
                         own: map<Did, Tid>, adder: map<Dir, Tid>, bucket: (Dir, Name) -> nat)

  datatype Event =
    | Begin(t: Tid, dir: Dir, name: Name, mine: Did)
    | ReadSeq(t: Tid)
    | BeginLookup(t: Tid)
    | LookupHit(t: Tid, d: Did)
    | LookupMiss(t: Tid)
    | Retry(t: Tid)
    | LockChain(t: Tid)
    | CompareFail(t: Tid)
    | CompareOk(t: Tid)
    | FoundInLookup(t: Tid, d: Did)
    | WaitDone(t: Tid)
    | Insert(t: Tid)
    | StartAdd(t: Tid)
    | ListDel(t: Tid)
    | Rehash(t: Tid)
    | Splice(t: Tid, x: Did)  // __d_move hashes an alias instead; a hashed alias is unhashed first, by Unhash
    | EndAdd(t: Tid)
    | LookupDone(t: Tid)
    | Unhash(d: Did)

  predicate HasMine(p: PC) { !p.Idle? && !p.Rehashed? }
  predicate Searching(p: PC) { HasMine(p) && !p.Owner? && !p.Adding? && !p.Unlisted? }
  predicate HoldsLock(p: PC) { p.Locked? || p.Checked? }
  predicate InAdd(p: PC) { p.Adding? || p.Unlisted? || p.Rehashed? }

  predicate Names(d: Dentry, dir: Dir, name: Name) { d.dir == dir && d.name == name }

  predicate HashedAs(ds: map<Did, Dentry>, d: Did, dir: Dir, name: Name) {
    d in ds && ds[d].hashed && Names(ds[d], dir, name)
  }

  predicate InLookupAs(ds: map<Did, Dentry>, d: Did, dir: Dir, name: Name) {
    d in ds && ds[d].inLookup && Names(ds[d], dir, name)
  }

  /** Between __d_lookup_done and __d_rehash a dentry is on neither list. */
  predicate InTransit(s: State, d: Did) {
    d in s.own && s.own[d] in s.pc && s.pc[s.own[d]].Unlisted? && s.pc[s.own[d]].mine == d
  }

  predicate Occupies(s: State, d: Did) {
    d in s.dentries && (s.dentries[d].inLookup || s.dentries[d].hashed || InTransit(s, d))
  }

  /** The property: at most one dentry per (directory, name) is in lookup or hashed. */
  ghost predicate Exclusive(s: State) {
    forall d, e :: Occupies(s, d) && Occupies(s, e) && Names(s.dentries[d], s.dentries[e].dir, s.dentries[e].name) ==> d == e
  }

  ghost predicate NoHashed(ds: map<Did, Dentry>, dir: Dir, name: Name) {
    forall d :: !HashedAs(ds, d, dir, name)
  }

  ghost predicate NoTransit(pc: map<Tid, PC>, dir: Dir, name: Name) {
    forall t :: t in pc && pc[t].Unlisted? ==> !(pc[t].dir == dir && pc[t].name == name)
  }

  function Seq(seqs: map<Dir, nat>, dir: Dir): nat { if dir in seqs then seqs[dir] else 0 }

  // ---- the invariant ----

  ghost predicate MineOk(s: State, t: Tid)
    requires t in s.pc
  {
    var p := s.pc[t];
    HasMine(p) ==>
      && p.mine in s.own && s.own[p.mine] == t && p.mine in s.dentries
      && s.dentries[p.mine] == Dentry(p.dir, p.name, p.Owner? || p.Adding?, false)
  }

  ghost predicate AddOk(s: State, t: Tid)
    requires t in s.pc
  {
    var p := s.pc[t];
    InAdd(p) ==> p.dir in s.adder && s.adder[p.dir] == t && Seq(s.seqs, p.dir) == p.n + 1 && p.n % 2 == 0
  }

  /** What a search that has read the sequence number knows. */
  ghost predicate SearchOk(s: State, t: Tid)
    requires t in s.pc
  {
    var p := s.pc[t];
    && (p.SeqRead? || p.Looking? || p.Missed? || p.Locked? || p.Checked? ==> p.sq <= Seq(s.seqs, p.dir))
    && (p.Looking? && Seq(s.seqs, p.dir) == p.sq && p.sq % 2 == 0 ==>
          forall d :: HashedAs(s.dentries, d, p.dir, p.name) ==> d in p.must)
    && (p.Missed? && Seq(s.seqs, p.dir) == p.sq && p.sq % 2 == 0 ==> NoHashed(s.dentries, p.dir, p.name))
    && (p.Locked? ==> p.sq % 2 == 0)
    && (p.Locked? && Seq(s.seqs, p.dir) == p.sq ==> NoHashed(s.dentries, p.dir, p.name))
    && (p.Checked? ==> NoHashed(s.dentries, p.dir, p.name) && NoTransit(s.pc, p.dir, p.name))
  }

  predicate Held(locks: map<nat, Tid>, b: nat, t: Tid) { b in locks && locks[b] == t }

  ghost predicate LockOk(s: State, t: Tid)
    requires t in s.pc
  {
    var p := s.pc[t];
    HoldsLock(p) ==> Held(s.locks, s.bucket(p.dir, p.name), t)
  }

  ghost predicate OwnOk(s: State, d: Did)
    requires d in s.own
  {
    s.own[d] in s.pc && HasMine(s.pc[s.own[d]]) && s.pc[s.own[d]].mine == d
  }

  ghost predicate AdderOk(s: State, dir: Dir)
    requires dir in s.adder
  {
    s.adder[dir] in s.pc && InAdd(s.pc[s.adder[dir]]) && s.pc[s.adder[dir]].dir == dir
  }

  ghost predicate ThreadOk(s: State, t: Tid)
    requires t in s.pc
  {
    MineOk(s, t) && AddOk(s, t) && SearchOk(s, t) && LockOk(s, t)
  }

  ghost predicate Good(s: State) {
    && (forall t {:trigger ThreadOk(s, t)} :: t in s.pc ==> ThreadOk(s, t))
    && (forall d {:trigger OwnOk(s, d)} :: d in s.own ==> OwnOk(s, d))
    && (forall d :: d in s.dentries && s.dentries[d].inLookup ==> d in s.own)
    && (forall dir {:trigger AdderOk(s, dir)} :: dir in s.adder ==> AdderOk(s, dir))
    && (forall dir :: Seq(s.seqs, dir) % 2 == 1 ==> dir in s.adder)
    && Exclusive(s)
  }

  // ---- the events ----

  predicate Guard(s: State, e: Event) {
    if e.Unhash? then e.d in s.dentries && s.dentries[e.d].hashed
    else if e.t !in s.pc then false
    else
      var p := s.pc[e.t];
      match e
      case Begin(_, _, _, mine) => p.Idle? && mine !in s.dentries && mine !in s.own
      case ReadSeq(_) => p.Start?
      case BeginLookup(_) => p.SeqRead?
      case LookupHit(_, d) => p.Looking? && HashedAs(s.dentries, d, p.dir, p.name)
      case LookupMiss(_) => p.Looking? && p.must == {}
      case Retry(_) => p.Looking? || p.Missed? || p.Waiting?
      case LockChain(_) => p.Missed? && p.sq % 2 == 0 && s.bucket(p.dir, p.name) !in s.locks
      case CompareFail(_) => p.Locked? && Seq(s.seqs, p.dir) != p.sq
      case CompareOk(_) => p.Locked? && Seq(s.seqs, p.dir) == p.sq
      case FoundInLookup(_, d) => p.Checked? && InLookupAs(s.dentries, d, p.dir, p.name)
      case WaitDone(_) => p.Waiting? && p.other in s.dentries && !s.dentries[p.other].inLookup
      case Insert(_) => p.Checked? && forall d :: d in s.dentries ==> !InLookupAs(s.dentries, d, p.dir, p.name)
      case StartAdd(_) => p.Owner? && Seq(s.seqs, p.dir) % 2 == 0
      case ListDel(_) => p.Adding? && s.bucket(p.dir, p.name) !in s.locks
      case Rehash(_) => p.Unlisted?
      case Splice(_, x) => p.Unlisted? && x in s.dentries && !s.dentries[x].hashed && !s.dentries[x].inLookup && x !in s.own
      case EndAdd(_) => p.Rehashed?
      case LookupDone(_) => p.Owner? && s.bucket(p.dir, p.name) !in s.locks
  }

  function DropFromMust(pc: map<Tid, PC>, d: Did): (r: map<Tid, PC>)
    ensures r.Keys == pc.Keys
    ensures forall t :: t in pc ==> r[t] == if pc[t].Looking? then pc[t].(must := pc[t].must - {d}) else pc[t]
  {
    map t | t in pc :: if pc[t].Looking? then pc[t].(must := pc[t].must - {d}) else pc[t]
  }

  function Do(s: State, e: Event): (r: State)
    requires Guard(s, e)
  {
    if e.Unhash? then
      s.(dentries := s.dentries[e.d := s.dentries[e.d].(hashed := false)], pc := DropFromMust(s.pc, e.d))
    else
      var t, p := e.t, s.pc[e.t];
      match e
      case Begin(_, dir, name, mine) =>
        s.(dentries := s.dentries[mine := Dentry(dir, name, false, false)], own := s.own[mine := t],
           pc := s.pc[t := Start(dir, name, mine)])
      case ReadSeq(_) => s.(pc := s.pc[t := SeqRead(p.dir, p.name, p.mine, Seq(s.seqs, p.dir))])
      case BeginLookup(_) =>
        s.(pc := s.pc[t := Looking(p.dir, p.name, p.mine, p.sq, set d | d in s.dentries && HashedAs(s.dentries, d, p.dir, p.name))])
      case LookupHit(_, _) => s.(own := s.own - {p.mine}, pc := s.pc[t := Idle])
      case LookupMiss(_) => s.(pc := s.pc[t := Missed(p.dir, p.name, p.mine, p.sq)])
      case Retry(_) => s.(pc := s.pc[t := Start(p.dir, p.name, p.mine)])
      case LockChain(_) =>
        s.(locks := s.locks[s.bucket(p.dir, p.name) := t], pc := s.pc[t := Locked(p.dir, p.name, p.mine, p.sq)])
      case CompareFail(_) =>
        s.(locks := s.locks - {s.bucket(p.dir, p.name)}, pc := s.pc[t := Start(p.dir, p.name, p.mine)])
      case CompareOk(_) => s.(pc := s.pc[t := Checked(p.dir, p.name, p.mine, p.sq)])
      case FoundInLookup(_, d) =>
        s.(locks := s.locks - {s.bucket(p.dir, p.name)}, pc := s.pc[t := Waiting(p.dir, p.name, p.mine, d)])
      case WaitDone(_) =>
        if HashedAs(s.dentries, p.other, p.dir, p.name) then s.(own := s.own - {p.mine}, pc := s.pc[t := Idle])
        else s.(pc := s.pc[t := Start(p.dir, p.name, p.mine)])
      case Insert(_) =>
        s.(dentries := s.dentries[p.mine := Dentry(p.dir, p.name, true, false)],
           locks := s.locks - {s.bucket(p.dir, p.name)}, pc := s.pc[t := Owner(p.dir, p.name, p.mine)])
      case StartAdd(_) =>
        s.(seqs := s.seqs[p.dir := Seq(s.seqs, p.dir) + 1], adder := s.adder[p.dir := t],
           pc := s.pc[t := Adding(p.dir, p.name, p.mine, Seq(s.seqs, p.dir))])
      case ListDel(_) =>
        s.(dentries := s.dentries[p.mine := Dentry(p.dir, p.name, false, false)],
           pc := s.pc[t := Unlisted(p.dir, p.name, p.mine, p.n)])
      case Rehash(_) =>
        s.(dentries := s.dentries[p.mine := Dentry(p.dir, p.name, false, true)], own := s.own - {p.mine},
           pc := s.pc[t := Rehashed(p.dir, p.n)])
      case Splice(_, x) =>
        s.(dentries := s.dentries[x := Dentry(p.dir, p.name, false, true)], own := s.own - {p.mine},
           pc := s.pc[t := Rehashed(p.dir, p.n)])
      case EndAdd(_) =>
        s.(seqs := s.seqs[p.dir := p.n + 2], adder := s.adder - {p.dir}, pc := s.pc[t := Idle])
      case LookupDone(_) =>
        s.(dentries := s.dentries[p.mine := Dentry(p.dir, p.name, false, false)], own := s.own - {p.mine},
           pc := s.pc[t := Idle])
  }

  // ---- every event keeps the invariant ----

  /** Locks of other threads than `t` stay. */
  ghost predicate OthersKeepLocks(s: State, r: State, t: Tid) {
    forall b, u :: u != t && Held(s.locks, b, u) ==> Held(r.locks, b, u)
  }

  /** Nothing new occupies a name, and names do not change. */
  ghost predicate OccupiesNoMore(s: State, r: State) {
    forall d :: Occupies(r, d) ==> Occupies(s, d) && Names(r.dentries[d], s.dentries[d].dir, s.dentries[d].name)
  }

  lemma ExclusiveKept(s: State, r: State)
    requires Exclusive(s) && OccupiesNoMore(s, r)
    ensures Exclusive(r)
  {
  }

  /** A step of a search: only its own control point moves, and perhaps a chain lock nobody else holds. */
  ghost predicate SearchStep(s: State, r: State, t: Tid) {
    && t in s.pc && t in r.pc && Searching(s.pc[t]) && Searching(r.pc[t])
    && r.pc[t].dir == s.pc[t].dir && r.pc[t].name == s.pc[t].name && r.pc[t].mine == s.pc[t].mine
    && r == s.(pc := s.pc[t := r.pc[t]], locks := r.locks)
    && OthersKeepLocks(s, r, t)
  }

  lemma SearchStepKeeps(s: State, r: State, t: Tid)
    requires Good(s) && SearchStep(s, r, t) && SearchOk(r, t) && LockOk(r, t)
    ensures Good(r)
  {
    assert ThreadOk(s, t);
    forall u | u in r.pc ensures ThreadOk(r, u) {
      assert ThreadOk(s, u);
    }
    forall d | d in r.own ensures OwnOk(r, d) { assert OwnOk(s, d); }
    forall dir | dir in r.adder ensures AdderOk(r, dir) { assert AdderOk(s, dir); }
    ExclusiveKept(s, r);
  }

  lemma ReadSeqKeeps(s: State, t: Tid)
    requires Good(s) && Guard(s, ReadSeq(t))
    ensures Good(Do(s, ReadSeq(t)))
  {
    SearchStepKeeps(s, Do(s, ReadSeq(t)), t);
  }

  lemma BeginLookupKeeps(s: State, t: Tid)
    requires Good(s) && Guard(s, BeginLookup(t))
    ensures Good(Do(s, BeginLookup(t)))
  {
    assert ThreadOk(s, t);
    SearchStepKeeps(s, Do(s, BeginLookup(t)), t);
  }

  lemma LookupMissKeeps(s: State, t: Tid)
    requires Good(s) && Guard(s, LookupMiss(t))
    ensures Good(Do(s, LookupMiss(t)))
  {
    assert ThreadOk(s, t);
    SearchStepKeeps(s, Do(s, LookupMiss(t)), t);
  }

  lemma RetryKeeps(s: State, t: Tid)
    requires Good(s) && Guard(s, Retry(t))
    ensures Good(Do(s, Retry(t)))
  {
    SearchStepKeeps(s, Do(s, Retry(t)), t);
  }

  lemma LockChainKeeps(s: State, t: Tid)
    requires Good(s) && Guard(s, LockChain(t))
    ensures Good(Do(s, LockChain(t)))
  {
    assert ThreadOk(s, t);
    SearchStepKeeps(s, Do(s, LockChain(t)), t);
  }

  lemma CompareFailKeeps(s: State, t: Tid)
    requires Good(s) && Guard(s, CompareFail(t))
    ensures Good(Do(s, CompareFail(t)))
  {
    assert ThreadOk(s, t);
    SearchStepKeeps(s, Do(s, CompareFail(t)), t);
  }

  /** An unchanged even sequence number: nothing is hashed, and nobody is about to hash. */
  lemma CompareOkKeeps(s: State, t: Tid)
    requires Good(s) && Guard(s, CompareOk(t))
    ensures Good(Do(s, CompareOk(t)))
  {
    assert ThreadOk(s, t);
    var p := s.pc[t];
    forall u | u in s.pc && s.pc[u].Unlisted? ensures s.pc[u].dir != p.dir {
      assert ThreadOk(s, u);
    }
    SearchStepKeeps(s, Do(s, CompareOk(t)), t);
  }

  lemma FoundInLookupKeeps(s: State, t: Tid, d: Did)
    requires Good(s) && Guard(s, FoundInLookup(t, d))
    ensures Good(Do(s, FoundInLookup(t, d)))
  {
    assert ThreadOk(s, t);
    SearchStepKeeps(s, Do(s, FoundInLookup(t, d)), t);
  }

  lemma GiveUpOther(s: State, r: State, t: Tid, u: Tid)
    requires Good(s) && t in s.pc && Searching(s.pc[t]) && !HoldsLock(s.pc[t]) && u in s.pc
    requires r == s.(own := s.own - {s.pc[t].mine}, pc := s.pc[t := Idle])
    ensures ThreadOk(r, u)
  {
    assert ThreadOk(s, t) && ThreadOk(s, u);
  }

  /** A search that ends with somebody else's dentry gives up its own. */
  lemma GiveUpKeeps(s: State, t: Tid)
    requires Good(s) && t in s.pc && Searching(s.pc[t]) && !HoldsLock(s.pc[t])
    ensures Good(s.(own := s.own - {s.pc[t].mine}, pc := s.pc[t := Idle]))
  {
    var r := s.(own := s.own - {s.pc[t].mine}, pc := s.pc[t := Idle]);
    assert ThreadOk(s, t);
    forall u | u in r.pc ensures ThreadOk(r, u) {
      GiveUpOther(s, r, t, u);
    }
    forall d | d in r.own ensures OwnOk(r, d) { assert OwnOk(s, d); }
    forall dir | dir in r.adder ensures AdderOk(r, dir) { assert AdderOk(s, dir); }
    ExclusiveKept(s, r);
  }

  lemma LookupHitKeeps(s: State, t: Tid, d: Did)
    requires Good(s) && Guard(s, LookupHit(t, d))
    ensures Good(Do(s, LookupHit(t, d)))
  {
    GiveUpKeeps(s, t);
  }

  lemma WaitDoneKeeps(s: State, t: Tid)
    requires Good(s) && Guard(s, WaitDone(t))
    ensures Good(Do(s, WaitDone(t)))
  {
    var p := s.pc[t];
    if HashedAs(s.dentries, p.other, p.dir, p.name) {
      GiveUpKeeps(s, t);
    } else {
      SearchStepKeeps(s, Do(s, WaitDone(t)), t);
    }
  }

  /** Nothing becomes hashed. */
  ghost predicate NoNewHashed(ds: map<Did, Dentry>, es: map<Did, Dentry>) {
    forall d, dir, name :: HashedAs(es, d, dir, name) ==> HashedAs(ds, d, dir, name)
  }

  /** Nobody gets between __d_lookup_done and __d_rehash. */
  ghost predicate NoNewTransit(pc: map<Tid, PC>, qc: map<Tid, PC>) {
    forall v :: v in qc && qc[v].Unlisted? ==> v in pc && pc[v] == qc[v]
  }

  /** What a search knows survives steps of others that hash nothing. */
  lemma SearchOkStable(s: State, r: State, u: Tid)
    requires u in s.pc && u in r.pc && r.pc[u] == s.pc[u] && SearchOk(s, u) && r.seqs == s.seqs
    requires NoNewHashed(s.dentries, r.dentries) && NoNewTransit(s.pc, r.pc)
    ensures SearchOk(r, u)
  {
  }

  lemma BeginOther(s: State, r: State, e: Event, u: Tid)
    requires Good(s) && e.Begin? && Guard(s, e) && r == Do(s, e) && u in s.pc
    ensures ThreadOk(r, u)
  {
    assert ThreadOk(s, u);
    if u != e.t { SearchOkStable(s, r, u); }
  }

  lemma BeginKeeps(s: State, t: Tid, dir: Dir, name: Name, mine: Did)
    requires Good(s) && Guard(s, Begin(t, dir, name, mine))
    ensures Good(Do(s, Begin(t, dir, name, mine)))
  {
    var r := Do(s, Begin(t, dir, name, mine));
    forall u | u in r.pc ensures ThreadOk(r, u) {
      BeginOther(s, r, Begin(t, dir, name, mine), u);
    }
    forall d | d in r.own ensures OwnOk(r, d) { if d != mine { assert OwnOk(s, d); } }
    forall x | x in r.adder ensures AdderOk(r, x) { assert AdderOk(s, x); }
    ExclusiveKept(s, r);
  }

  /** The new in-lookup dentry is alone under its name. */
  lemma InsertIsAlone(s: State, t: Tid, d: Did)
    requires Good(s) && Guard(s, Insert(t)) && Occupies(s, d)
    ensures !Names(s.dentries[d], s.pc[t].dir, s.pc[t].name)
  {
    assert ThreadOk(s, t);
    var p := s.pc[t];
    assert !HashedAs(s.dentries, d, p.dir, p.name);
    if InTransit(s, d) {
      assert ThreadOk(s, s.own[d]);
    }
  }

  lemma InsertKeeps(s: State, t: Tid)
    requires Good(s) && Guard(s, Insert(t))
    ensures Good(Do(s, Insert(t)))
  {
    var r := Do(s, Insert(t));
    var p := s.pc[t];
    assert ThreadOk(s, t);
    forall u | u in r.pc ensures ThreadOk(r, u) {
      assert ThreadOk(s, u);
      InsertOther(s, r, t, u);
    }
    forall d | d in r.own ensures OwnOk(r, d) { assert OwnOk(s, d); }
    forall x | x in r.adder ensures AdderOk(r, x) { assert AdderOk(s, x); }
    forall d | Occupies(r, d) && d != p.mine ensures !Names(s.dentries[d], p.dir, p.name) && Occupies(s, d) {
      InsertIsAlone(s, t, d);
    }
  }

  lemma InsertOther(s: State, r: State, t: Tid, u: Tid)
    requires Good(s) && Guard(s, Insert(t)) && r == Do(s, Insert(t)) && u in s.pc
    ensures ThreadOk(r, u)
  {
    assert ThreadOk(s, t) && ThreadOk(s, u);
    if u != t { SearchOkStable(s, r, u); }
  }

  /** The sequence number becomes odd: searches in this directory rely on nothing any more. */
  lemma StartAddSearch(s: State, r: State, t: Tid, u: Tid)
    requires Good(s) && Guard(s, StartAdd(t)) && r == Do(s, StartAdd(t)) && u in s.pc
    ensures SearchOk(r, u)
  {
    assert ThreadOk(s, u);
  }

  lemma StartAddOther(s: State, r: State, t: Tid, u: Tid)
    requires Good(s) && Guard(s, StartAdd(t)) && r == Do(s, StartAdd(t)) && u in s.pc
    ensures ThreadOk(r, u)
  {
    StartAddSearch(s, r, t, u);
    assert ThreadOk(s, t) && ThreadOk(s, u);
  }

  lemma StartAddKeeps(s: State, t: Tid)
    requires Good(s) && Guard(s, StartAdd(t))
    ensures Good(Do(s, StartAdd(t)))
  {
    var r := Do(s, StartAdd(t));
    assert ThreadOk(s, t);
    if s.pc[t].dir in s.adder { AdderIsOdd(s, s.pc[t].dir); }
    forall u | u in r.pc ensures ThreadOk(r, u) {
      StartAddOther(s, r, t, u);
    }
    forall d | d in r.own ensures OwnOk(r, d) { assert OwnOk(s, d); }
    forall x | x in r.adder ensures AdderOk(r, x) { if x in s.adder { assert AdderOk(s, x); } }
    ExclusiveKept(s, r);
  }

  lemma AdderIsOdd(s: State, dir: Dir)
    requires Good(s) && dir in s.adder
    ensures Seq(s.seqs, dir) % 2 == 1
  {
    assert AdderOk(s, dir);
    assert ThreadOk(s, s.adder[dir]);
  }

  lemma ListDelKeeps(s: State, t: Tid)
    requires Good(s) && Guard(s, ListDel(t))
    ensures Good(Do(s, ListDel(t)))
  {
    var r := Do(s, ListDel(t));
    assert ThreadOk(s, t);
    forall u | u in r.pc ensures ThreadOk(r, u) {
      ListDelOther(s, r, t, u);
    }
    forall d | d in r.own ensures OwnOk(r, d) { assert OwnOk(s, d); }
    forall x | x in r.adder ensures AdderOk(r, x) { assert AdderOk(s, x); }
    ExclusiveKept(s, r);
  }

  /** Whoever has checked this name holds its chain lock, so the dentry cannot leave the list meanwhile. */
  lemma ListDelOther(s: State, r: State, t: Tid, u: Tid)
    requires Good(s) && Guard(s, ListDel(t)) && r == Do(s, ListDel(t)) && u in s.pc
    ensures ThreadOk(r, u)
  {
    assert ThreadOk(s, t) && ThreadOk(s, u);
    assert NoNewHashed(s.dentries, r.dentries);
  }

  lemma RehashKeeps(s: State, t: Tid)
    requires Good(s) && Guard(s, Rehash(t))
    ensures Good(Do(s, Rehash(t)))
  {
    var r := Do(s, Rehash(t));
    assert ThreadOk(s, t);
    forall u | u in r.pc ensures ThreadOk(r, u) {
      RehashOther(s, r, t, u);
    }
    forall d | d in r.own ensures OwnOk(r, d) { assert OwnOk(s, d); }
    forall x | x in r.adder ensures AdderOk(r, x) { assert AdderOk(s, x); }
    ExclusiveKept(s, r);
  }

  /** Only under (dir, name) may anything become hashed. */
  ghost predicate HashedOnly(ds: map<Did, Dentry>, es: map<Did, Dentry>, dir: Dir, name: Name) {
    forall d, x, y :: HashedAs(es, d, x, y) ==> HashedAs(ds, d, x, y) || (x == dir && y == name)
  }

  /** The same place, except that an unfinished hash walk need not see `x` any more. */
  predicate SameExcept(p: PC, q: PC, x: Did) {
    q == p || (p.Looking? && q == p.(must := p.must - {x}))
  }

  /** While an addition is under way in `dir` the sequence number is odd, so no search there relies on it. */
  lemma SearchOkWhileAdding(s: State, r: State, t: Tid, u: Tid, x: Did)
    requires Good(s) && t in s.pc && s.pc[t].Unlisted? && u in s.pc && u != t && u in r.pc && r.seqs == s.seqs
    requires SameExcept(s.pc[u], r.pc[u], x)
    requires forall dir, name :: HashedAs(r.dentries, x, dir, name) ==> dir == s.pc[t].dir && name == s.pc[t].name
    requires HashedOnly(s.dentries, r.dentries, s.pc[t].dir, s.pc[t].name) && NoNewTransit(s.pc, r.pc)
    ensures SearchOk(r, u)
  {
    assert ThreadOk(s, t) && ThreadOk(s, u);
  }

  lemma RehashOther(s: State, r: State, t: Tid, u: Tid)
    requires Good(s) && Guard(s, Rehash(t)) && r == Do(s, Rehash(t)) && u in s.pc
    ensures ThreadOk(r, u)
  {
    assert ThreadOk(s, t) && ThreadOk(s, u);
    if u != t { SearchOkWhileAdding(s, r, t, u, s.pc[t].mine); }
  }

  lemma OwnedIsUnhashed(s: State, x: Did)
    requires Good(s) && x in s.own
    ensures x in s.dentries && !s.dentries[x].hashed
  {
    assert OwnOk(s, x);
    assert ThreadOk(s, s.own[x]);
  }

  /** A hashed dentry is nobody's private one. */
  lemma HashedIsPublic(s: State, x: Did)
    requires Good(s) && x in s.dentries && s.dentries[x].hashed
    ensures x !in s.own
  {
    if x in s.own { OwnedIsUnhashed(s, x); }
  }

  lemma SpliceOther(s: State, r: State, t: Tid, x: Did, u: Tid)
    requires Good(s) && Guard(s, Splice(t, x)) && r == Do(s, Splice(t, x)) && u in s.pc && x !in s.own
    ensures ThreadOk(r, u)
  {
    assert ThreadOk(s, t) && ThreadOk(s, u);
    assert SameExcept(s.pc[u], r.pc[u], x) || u == t;
    if u != t { SearchOkWhileAdding(s, r, t, u, x); }
  }

  lemma SpliceOccupies(s: State, r: State, t: Tid, x: Did, d: Did)
    requires Good(s) && Guard(s, Splice(t, x)) && r == Do(s, Splice(t, x)) && Occupies(r, d) && d != x
    ensures Occupies(s, d) && r.dentries[d] == s.dentries[d] && !Names(s.dentries[d], s.pc[t].dir, s.pc[t].name)
  {
    assert ThreadOk(s, t);
    assert InTransit(r, d) ==> InTransit(s, d);
    assert Occupies(s, s.pc[t].mine);
  }

  /** Everything but `x` that occupies a name did so before; `x` takes over the name of the dentry in transit. */
  lemma SpliceExclusive(s: State, r: State, t: Tid, x: Did)
    requires Good(s) && Guard(s, Splice(t, x)) && r == Do(s, Splice(t, x)) && x !in s.own
    ensures Exclusive(r)
  {
    forall d | Occupies(r, d) && d != x
      ensures Occupies(s, d) && r.dentries[d] == s.dentries[d]
      ensures !Names(r.dentries[d], s.pc[t].dir, s.pc[t].name)
    {
      SpliceOccupies(s, r, t, x, d);
    }
  }

  lemma SpliceRest(s: State, r: State, t: Tid, x: Did)
    requires Good(s) && Guard(s, Splice(t, x)) && r == Do(s, Splice(t, x)) && x !in s.own
    ensures forall d :: d in r.own ==> OwnOk(r, d)
    ensures forall dir :: dir in r.adder ==> AdderOk(r, dir)
    ensures forall d :: d in r.dentries && r.dentries[d].inLookup ==> d in r.own
  {
    assert ThreadOk(s, t);
    forall d | d in r.own ensures OwnOk(r, d) { assert OwnOk(s, d); }
    forall dir | dir in r.adder ensures AdderOk(r, dir) { assert AdderOk(s, dir); }
  }

  lemma SpliceKeeps(s: State, t: Tid, x: Did)
    requires Good(s) && Guard(s, Splice(t, x))
    ensures Good(Do(s, Splice(t, x)))
  {
    var r := Do(s, Splice(t, x));
    forall u | u in r.pc ensures ThreadOk(r, u) {
      SpliceOther(s, r, t, x, u);
    }
    SpliceRest(s, r, t, x);
    SpliceExclusive(s, r, t, x);
  }

  lemma EndAddOther(s: State, r: State, t: Tid, u: Tid)
    requires Good(s) && Guard(s, EndAdd(t)) && r == Do(s, EndAdd(t)) && u in s.pc
    ensures ThreadOk(r, u)
  {
    assert ThreadOk(s, t) && ThreadOk(s, u);
  }

  lemma EndAddKeeps(s: State, t: Tid)
    requires Good(s) && Guard(s, EndAdd(t))
    ensures Good(Do(s, EndAdd(t)))
  {
    var r := Do(s, EndAdd(t));
    assert ThreadOk(s, t);
    forall u | u in r.pc ensures ThreadOk(r, u) {
      EndAddOther(s, r, t, u);
    }
    forall d | d in r.own ensures OwnOk(r, d) { assert OwnOk(s, d); }
    forall x | x in r.adder ensures AdderOk(r, x) { assert AdderOk(s, x); }
    ExclusiveKept(s, r);
  }

  lemma LookupDoneOther(s: State, r: State, t: Tid, u: Tid)
    requires Good(s) && Guard(s, LookupDone(t)) && r == Do(s, LookupDone(t)) && u in s.pc
    ensures ThreadOk(r, u)
  {
    assert ThreadOk(s, t) && ThreadOk(s, u);
    if u != t { SearchOkStable(s, r, u); }
  }

  lemma LookupDoneKeeps(s: State, t: Tid)
    requires Good(s) && Guard(s, LookupDone(t))
    ensures Good(Do(s, LookupDone(t)))
  {
    var r := Do(s, LookupDone(t));
    assert ThreadOk(s, t);
    forall u | u in r.pc ensures ThreadOk(r, u) {
      LookupDoneOther(s, r, t, u);
    }
    forall d | d in r.own ensures OwnOk(r, d) { assert OwnOk(s, d); }
    forall x | x in r.adder ensures AdderOk(r, x) { assert AdderOk(s, x); }
    ExclusiveKept(s, r);
  }

  lemma UnhashOther(s: State, r: State, d: Did, u: Tid)
    requires Good(s) && Guard(s, Unhash(d)) && r == Do(s, Unhash(d)) && u in s.pc && d !in s.own
    ensures ThreadOk(r, u)
  {
    assert ThreadOk(s, u);
    assert NoNewHashed(s.dentries, r.dentries) && NoNewTransit(s.pc, r.pc);
  }

  lemma UnhashKeeps(s: State, d: Did)
    requires Good(s) && Guard(s, Unhash(d))
    ensures Good(Do(s, Unhash(d)))
  {
    var r := Do(s, Unhash(d));
    HashedIsPublic(s, d);
    forall u | u in r.pc ensures ThreadOk(r, u) {
      UnhashOther(s, r, d, u);
    }
    forall e | e in r.own ensures OwnOk(r, e) { assert OwnOk(s, e); }
    forall dir | dir in r.adder ensures AdderOk(r, dir) { assert AdderOk(s, dir); }
    ExclusiveKept(s, r);
  }

  lemma EventKeeps(s: State, e: Event)
    requires Good(s) && Guard(s, e)
    ensures Good(Do(s, e))
  {
    match e
    case Begin(t, dir, name, mine) => BeginKeeps(s, t, dir, name, mine);
    case ReadSeq(t) => ReadSeqKeeps(s, t);
    case BeginLookup(t) => BeginLookupKeeps(s, t);
    case LookupHit(t, d) => LookupHitKeeps(s, t, d);
    case LookupMiss(t) => LookupMissKeeps(s, t);
    case Retry(t) => RetryKeeps(s, t);
    case LockChain(t) => LockChainKeeps(s, t);
    case CompareFail(t) => CompareFailKeeps(s, t);
    case CompareOk(t) => CompareOkKeeps(s, t);
    case FoundInLookup(t, d) => FoundInLookupKeeps(s, t, d);
    case WaitDone(t) => WaitDoneKeeps(s, t);
    case Insert(t) => InsertKeeps(s, t);
    case StartAdd(t) => StartAddKeeps(s, t);
    case ListDel(t) => ListDelKeeps(s, t);
    case Rehash(t) => RehashKeeps(s, t);
    case Splice(t, x) => SpliceKeeps(s, t, x);
    case EndAdd(t) => EndAddKeeps(s, t);
    case LookupDone(t) => LookupDoneKeeps(s, t);
    case Unhash(d) => UnhashKeeps(s, d);
  }

  // ---- whole runs ----

  /** No dentry is hashed or in lookup, nobody is adding, everybody is idle. */
  ghost predicate Init(s: State) {
    && s.dentries == map[] && s.own == map[] && s.adder == map[] && s.locks == map[]
    && (forall t :: t in s.pc ==> s.pc[t].Idle?)
    && (forall dir :: dir in s.seqs ==> s.seqs[dir] % 2 == 0)
  }

  ghost predicate Run(s: State, es: seq<Event>, r: State)
    decreases |es|
  {
    if es == [] then r == s
    else Guard(s, es[0]) && Run(Do(s, es[0]), es[1..], r)
  }

  lemma {:induction false} RunKeeps(s: State, es: seq<Event>, r: State)
    requires Good(s) && Run(s, es, r)
    ensures Good(r)
    decreases |es|
  {
    if es != [] {
      EventKeeps(s, es[0]);
      RunKeeps(Do(s, es[0]), es[1..], r);
    }
  }

  /** Whatever the interleaving, two dentries never stand for the same name of the same directory. */
  lemma OneDentryPerName(s: State, es: seq<Event>, r: State, d: Did, e: Did)
    requires Init(s) && Run(s, es, r)
    requires d in r.dentries && (r.dentries[d].inLookup || r.dentries[d].hashed)
    requires e in r.dentries && (r.dentries[e].inLookup || r.dentries[e].hashed)
    requires r.dentries[d].dir == r.dentries[e].dir && r.dentries[d].name == r.dentries[e].name
    ensures d == e
  {
    RunKeeps(s, es, r);
    assert Occupies(r, d) && Occupies(r, e);
  }

  /**
   * When a search inserts its dentry, no other dentry of the name exists in any form: none hashed,
   * none in lookup, none on its way from one list to the other.
   */
  lemma InsertIsFirst(s: State, es: seq<Event>, r: State, t: Tid, d: Did)
    requires Init(s) && Run(s, es, r) && Guard(r, Insert(t)) && Occupies(r, d)
    ensures !Names(r.dentries[d], r.pc[t].dir, r.pc[t].name)
  {
    RunKeeps(s, es, r);
    InsertIsAlone(r, t, d);
  }

  /** Two threads never look the same name up at the same time: the second one waits for the first. */
  lemma LookupsAreExclusive(s: State, t: Tid, u: Tid)
    requires Good(s) && t in s.pc && u in s.pc && t != u
    requires s.pc[t].Owner? || s.pc[t].Adding?
    requires s.pc[u].Owner? || s.pc[u].Adding?
    ensures !(s.pc[t].dir == s.pc[u].dir && s.pc[t].name == s.pc[u].name)
  {
    assert ThreadOk(s, t) && ThreadOk(s, u);
    assert Occupies(s, s.pc[t].mine) && Occupies(s, s.pc[u].mine);
  }
}
