/**
 * Growing a shared descriptor table while other threads install files (fs/file.c).
 *
 * Any number of threads share one files_struct.  Each event below is one atomic step of one of
 * them: a file_lock section, or one access of the lock-free path of __fd_install.  copy_fdtable reads
 * the old array one slot per event, so lock-free stores may fall between the reads.  An RCU grace
 * period is the set of threads that were inside a read section when synchronize_rcu was called.
 */
module FdProtocol {
  import opened Common
  import opened FdModel

  type Tid = nat

  datatype PC =
    | Idle
    | InRcu(fd: nat, file: File)                       // inside the read section, flag not yet read
    | Fast(fd: nat, file: File)                        // read resize_in_progress == false
    | FastAt(fd: nat, file: File, tab: nat)            // loaded files->fdt
    | Slow(fd: nat, file: File)                        // read true, left the section, wants file_lock
    | Growing(nr: nat)                                 // set resize_in_progress, dropped file_lock
    | Syncing(nr: nat, wait: set<Tid>)                 // inside synchronize_rcu
    | Synced(nr: nat)                                  // past it, wants file_lock again
    | Copying(nr: nat, size: nat, got: seq<Option<File>>) // holds file_lock, |got| slots read
    | Published                                        // holds file_lock, files->fdt is the new table

  /**
   * `tabs` are all tables ever published, the last one current; `truth` says which files callers
   * have been told are installed; `bug` is set when a BUG_ON fires.  `resizing` is the flag
   * resize_in_progress together with the thread that set it.
   */
  datatype State = State(tabs: seq<Table>, next: nat, resizing: Option<Tid>, lock: Option<Tid>,
                         pc: map<Tid, PC>, count: nat, reserved: map<nat, Tid>, truth: map<nat, File>, bug: bool)

  datatype Event =
    | Enter(t: Tid, fd: nat, file: File)
    | ReadFlag(t: Tid)
    | LoadTable(t: Tid)
    | Store(t: Tid)
    | SlowStore(t: Tid)
    | StartGrow(t: Tid, nr: nat)
    | ReadCount(t: Tid)
    | EndSync(t: Tid)
    | Relock(t: Tid, size: nat, mem: bool)
    | CopySlot(t: Tid)
    | Publish(t: Tid)
    | Finish(t: Tid)
    | Reserved(t: Tid, start: nat, end: nat, cloexec: bool)
    | PutUnused(t: Tid, fd: nat)
    | CloseFd(t: Tid, fd: nat)
    | DupTo(t: Tid, fd: nat, file: File, cloexec: bool)
    | Share(t: Tid, u: Tid)
    | Leave(t: Tid)
    | GetRef
    | PutRef

  predicate Grower(p: PC) { p.Growing? || p.Syncing? || p.Synced? || p.Copying? || p.Published? }
  predicate InSection(p: PC) { p.InRcu? || p.Fast? || p.FastAt? }
  predicate LockFree(p: PC) { p.Fast? || p.FastAt? }
  predicate Installer(p: PC) { p.InRcu? || p.Fast? || p.FastAt? || p.Slow? }

  function Cur(s: State): Table
    requires |s.tabs| > 0
  {
    s.tabs[|s.tabs| - 1]
  }

  function Now(s: State): Files
    requires |s.tabs| > 0
  {
    Files(Cur(s), s.next)
  }

  ghost predicate TablesOk(s: State) {
    && |s.tabs| > 0
    && Inv(Now(s))
    && (forall fd :: fd in s.truth ==> fd < |Cur(s).fd| && Cur(s).fd[fd] == Some(s.truth[fd]))
    && (forall fd :: 0 <= fd < |Cur(s).fd| && Cur(s).fd[fd].Some? ==> fd in s.truth)
    && (forall fd :: fd in s.reserved ==>
          s.reserved[fd] in s.pc && fd < |Cur(s).fd| && Cur(s).open[fd] && Cur(s).fd[fd].None?)
  }

  /** Every thread on the lock-free path is in `w`. */
  ghost predicate LockFreeIn(pc: map<Tid, PC>, w: set<Tid>) {
    forall u :: u in pc && LockFree(pc[u]) ==> u in w
  }

  ghost predicate PcOk(s: State, t: Tid)
    requires t in s.pc && |s.tabs| > 0
  {
    var p := s.pc[t];
    && (Installer(p) ==> p.fd in s.reserved && s.reserved[p.fd] == t)
    && (p.FastAt? ==> p.tab == |s.tabs| - 1)
    && (Grower(p) <==> s.resizing == Some(t))
    && (Grower(p) && !p.Published? ==> p.nr >= |Cur(s).open|)
    && (p.Syncing? ==> LockFreeIn(s.pc, p.wait))
    && (p.Synced? || p.Copying? || p.Published? ==> LockFreeIn(s.pc, {}))
    && (p.Copying? ==> p.size > p.nr && p.size % 64 == 0 && |p.got| <= |Cur(s).fd| && p.got == Cur(s).fd[..|p.got|])
    && (p.Copying? || p.Published? <==> s.lock == Some(t))
  }

  /** The invariant of every reachable state. */
  ghost predicate Good(s: State) {
    && !s.bug
    && TablesOk(s)
    && (forall t {:trigger PcOk(s, t)} :: t in s.pc ==> PcOk(s, t))
    && (s.lock.Some? ==> s.lock.value in s.pc)
    && (s.resizing.Some? ==> s.resizing.value in s.pc)
    && |s.pc| <= s.count
  }

  /** Synchronisation lets go of a thread once it leaves its read section. */
  function Unwait(pc: map<Tid, PC>, u: Tid): (r: map<Tid, PC>)
    ensures r.Keys == pc.Keys
    ensures forall t :: t in pc ==> r[t] == if pc[t].Syncing? then pc[t].(wait := pc[t].wait - {u}) else pc[t]
  {
    map t | t in pc :: if pc[t].Syncing? then pc[t].(wait := pc[t].wait - {u}) else pc[t]
  }

  function SetCur(s: State, t: Table): seq<Table>
    requires |s.tabs| > 0
  {
    s.tabs[|s.tabs| - 1 := t]
  }

  predicate At(s: State, t: Tid) { t in s.pc }
  predicate Free(s: State, t: Tid) { t in s.pc && s.pc[t].Idle? && s.lock.None? }

  /** What must hold for the event to happen: control points, locks, and what callers promise. */
  predicate Guard(s: State, e: Event)
    requires |s.tabs| > 0
  {
    match e
    case Enter(t, fd, _) => At(s, t) && s.pc[t].Idle? && fd in s.reserved && s.reserved[fd] == t
    case ReadFlag(t) => At(s, t) && s.pc[t].InRcu?
    case LoadTable(t) => At(s, t) && s.pc[t].Fast?
    case Store(t) => At(s, t) && s.pc[t].FastAt?
    case SlowStore(t) => At(s, t) && s.pc[t].Slow? && s.lock.None?
    case StartGrow(t, nr) => Free(s, t) && nr >= |Cur(s).open| && s.resizing.None?
    case ReadCount(t) => At(s, t) && s.pc[t].Growing?
    case EndSync(t) => At(s, t) && s.pc[t].Syncing? && s.pc[t].wait == {}
    case Relock(t, size, _) => At(s, t) && s.pc[t].Synced? && s.lock.None? && size % 64 == 0
    case CopySlot(t) => At(s, t) && s.pc[t].Copying? && |s.pc[t].got| < |Cur(s).fd|
    case Publish(t) => At(s, t) && s.pc[t].Copying? && |s.pc[t].got| == |Cur(s).fd|
    case Finish(t) => At(s, t) && s.pc[t].Published?
    case Reserved(t, start, end, _) =>
      Free(s, t) && NextFree(Cur(s).open, start) < end && NextFree(Cur(s).open, start) < |Cur(s).open|
    case PutUnused(t, fd) => Free(s, t) && fd in s.reserved && s.reserved[fd] == t
    case CloseFd(t, fd) => Free(s, t)
    case DupTo(t, fd, _, _) => Free(s, t) && fd < |Cur(s).open|
    case Share(t, u) => At(s, t) && s.pc[t].Idle? && u !in s.pc
    case Leave(t) => At(s, t) && s.pc[t].Idle? && t !in s.reserved.Values
    case GetRef => true
    case PutRef => s.count > |s.pc|
  }

  /** Write `file` into slot `fd` of table `tab`; the BUG_ON wants the slot to be there and empty. */
  function StoreAt(s: State, tab: nat, fd: nat, file: File): (r: State) {
    if tab < |s.tabs| && fd < |s.tabs[tab].fd| && s.tabs[tab].fd[fd].None? then
      s.(tabs := s.tabs[tab := s.tabs[tab].(fd := s.tabs[tab].fd[fd := Some(file)])],
         reserved := s.reserved - {fd}, truth := s.truth[fd := file])
    else s.(bug := true)
  }

  function DoInstall(s: State, e: Event): (r: State)
    requires |s.tabs| > 0 && Guard(s, e)
    requires e.Enter? || e.ReadFlag? || e.LoadTable? || e.Store? || e.SlowStore?
  {
    match e
    case Enter(t, fd, file) => s.(pc := s.pc[t := InRcu(fd, file)])
    case ReadFlag(t) =>
      if s.resizing.Some? then s.(pc := Unwait(s.pc[t := Slow(s.pc[t].fd, s.pc[t].file)], t))
      else s.(pc := s.pc[t := Fast(s.pc[t].fd, s.pc[t].file)])
    case LoadTable(t) => s.(pc := s.pc[t := FastAt(s.pc[t].fd, s.pc[t].file, |s.tabs| - 1)])
    case Store(t) =>
      StoreAt(s, s.pc[t].tab, s.pc[t].fd, s.pc[t].file).(pc := Unwait(s.pc[t := Idle], t))
    case SlowStore(t) =>
      StoreAt(s, |s.tabs| - 1, s.pc[t].fd, s.pc[t].file).(pc := s.pc[t := Idle])
  }

  function DoGrow(s: State, e: Event): (r: State)
    requires |s.tabs| > 0 && Shape(Cur(s)) && Guard(s, e)
    requires e.StartGrow? || e.ReadCount? || e.EndSync? || e.Relock? || e.CopySlot? || e.Publish? || e.Finish?
  {
    match e
    case StartGrow(t, nr) => s.(resizing := Some(t), pc := s.pc[t := Growing(nr)])
    case ReadCount(t) =>
      var nr := s.pc[t].nr;
      if s.count > 1 then s.(pc := s.pc[t := Syncing(nr, set u | u in s.pc && InSection(s.pc[u]))])
      else s.(pc := s.pc[t := Synced(nr)])
    case EndSync(t) => s.(pc := s.pc[t := Synced(s.pc[t].nr)])
    case Relock(t, size, mem) =>
      if !mem || size <= s.pc[t].nr then s.(resizing := None, pc := s.pc[t := Idle])
      else if s.pc[t].nr < |Cur(s).open| then s.(bug := true)
      else s.(lock := Some(t), pc := s.pc[t := Copying(s.pc[t].nr, size, [])])
    case CopySlot(t) =>
      var p := s.pc[t];
      s.(pc := s.pc[t := p.(got := p.got + [Cur(s).fd[|p.got|]])])
    case Publish(t) =>
      var p := s.pc[t];
      if p.size < |Cur(s).open| || p.size % 64 != 0 then s.(bug := true)
      else
        var g := Grow(Cur(s), p.size);
        s.(tabs := s.tabs + [g.(fd := p.got + g.fd[|p.got|..])], pc := s.pc[t := Published])
    case Finish(t) => s.(resizing := None, lock := None, pc := s.pc[t := Idle])
  }

  function DoLocked(s: State, e: Event): (r: State)
    requires |s.tabs| > 0 && Shape(Cur(s)) && Guard(s, e)
    requires e.Reserved? || e.PutUnused? || e.CloseFd? || e.DupTo?
  {
    match e
    case Reserved(t, start, _, cloexec) =>
      var k := NextFree(Cur(s).open, start);
      var f := Reserve(Now(s), start, k, cloexec);
      s.(tabs := SetCur(s, f.t), next := f.next, reserved := s.reserved[k := t])
    case PutUnused(t, fd) =>
      if fd >= |Cur(s).open| then s.(bug := true)
      else
        var f := Put(Now(s), fd);
        s.(tabs := SetCur(s, f.t), next := f.next, reserved := s.reserved - {fd})
    case CloseFd(t, fd) =>
      var r := Close(Now(s), fd);
      if r.0.Err? then s
      else s.(tabs := SetCur(s, r.1.t), next := r.1.next, truth := s.truth - {fd})
    case DupTo(t, fd, file, cloexec) =>
      var r := DupInto(Now(s), fd, file, cloexec);
      if r.0.Err? then s
      else s.(tabs := SetCur(s, r.1.t), truth := s.truth[fd := file])
  }

  function DoShare(s: State, e: Event): (r: State)
    requires |s.tabs| > 0 && Guard(s, e) && s.count >= |s.pc|
    requires e.Share? || e.Leave? || e.GetRef? || e.PutRef?
  {
    match e
    case Share(t, u) => s.(pc := s.pc[u := Idle], count := s.count + 1)
    case Leave(t) => assert s.pc != map[]; s.(pc := s.pc - {t}, count := s.count - 1)
    case GetRef => s.(count := s.count + 1)
    case PutRef => s.(count := s.count - 1)
  }

  function Do(s: State, e: Event): (r: State)
    requires |s.tabs| > 0 && Shape(Cur(s)) && Guard(s, e) && s.count >= |s.pc|
  {
    if e.Enter? || e.ReadFlag? || e.LoadTable? || e.Store? || e.SlowStore? then DoInstall(s, e)
    else if e.Reserved? || e.PutUnused? || e.CloseFd? || e.DupTo? then DoLocked(s, e)
    else if e.Share? || e.Leave? || e.GetRef? || e.PutRef? then DoShare(s, e)
    else DoGrow(s, e)
  }

  // ---- every event keeps the invariant ----

  /** An event of `t` that changes no table and no reservation, and nobody else's control point. */
  ghost predicate OnlyPc(s: State, r: State, t: Tid) {
    && t in s.pc && r.pc.Keys == s.pc.Keys
    && r.tabs == s.tabs && r.next == s.next && r.count == s.count && r.reserved == s.reserved
    && r.truth == s.truth && r.bug == s.bug
    && forall u :: u in s.pc && u != t ==> r.pc[u] == s.pc[u]
  }

  /** The locks change only by `t` taking or dropping them. */
  ghost predicate LocksBy(s: State, r: State, t: Tid)
    requires t in s.pc && t in r.pc
  {
    && (r.lock == s.lock || (r.lock == None && s.lock == Some(t)) || (r.lock == Some(t) && s.lock == None))
    && (r.resizing == s.resizing || (r.resizing == None && s.resizing == Some(t)) || (r.resizing == Some(t) && s.resizing == None))
    && (LockFree(r.pc[t]) ==> LockFree(s.pc[t]) || s.resizing.None?)
  }

  lemma OtherPc(s: State, r: State, t: Tid, u: Tid)
    requires |s.tabs| > 0 && OnlyPc(s, r, t) && LocksBy(s, r, t) && u in s.pc && u != t
    requires PcOk(s, u)
    ensures PcOk(r, u)
  {
    var p := s.pc[u];
    if p.Syncing? {
      assert LockFreeIn(r.pc, p.wait);
    }
    if p.Synced? || p.Copying? || p.Published? {
      assert LockFreeIn(r.pc, {});
    }
  }

  lemma OnlyPcKeeps(s: State, r: State, t: Tid)
    requires Good(s) && OnlyPc(s, r, t) && LocksBy(s, r, t) && PcOk(r, t)
    ensures Good(r)
  {
    assert |r.pc| == |s.pc| by { assert |r.pc.Keys| == |s.pc.Keys|; }
    forall u | u in r.pc ensures PcOk(r, u) {
      if u != t { OtherPc(s, r, t, u); }
    }
    assert Now(r) == Now(s);
  }

  lemma EnterKeeps(s: State, t: Tid, fd: nat, file: File)
    requires Good(s) && Guard(s, Enter(t, fd, file))
    ensures Good(Do(s, Enter(t, fd, file)))
  {
    assert PcOk(s, t);
    OnlyPcKeeps(s, Do(s, Enter(t, fd, file)), t);
  }

  lemma LoadTableKeeps(s: State, t: Tid)
    requires Good(s) && Guard(s, LoadTable(t))
    ensures Good(Do(s, LoadTable(t)))
  {
    assert PcOk(s, t);
    OnlyPcKeeps(s, Do(s, LoadTable(t)), t);
  }

  lemma StartGrowKeeps(s: State, t: Tid, nr: nat)
    requires Good(s) && Guard(s, StartGrow(t, nr))
    ensures Good(Do(s, StartGrow(t, nr)))
  {
    assert PcOk(s, t);
    OnlyPcKeeps(s, Do(s, StartGrow(t, nr)), t);
  }

  lemma EndSyncKeeps(s: State, t: Tid)
    requires Good(s) && Guard(s, EndSync(t))
    ensures Good(Do(s, EndSync(t)))
  {
    assert PcOk(s, t);
    OnlyPcKeeps(s, Do(s, EndSync(t)), t);
  }

  lemma CopySlotKeeps(s: State, t: Tid)
    requires Good(s) && Guard(s, CopySlot(t))
    ensures Good(Do(s, CopySlot(t)))
  {
    assert PcOk(s, t);
    OnlyPcKeeps(s, Do(s, CopySlot(t)), t);
  }

  lemma FinishKeeps(s: State, t: Tid)
    requires Good(s) && Guard(s, Finish(t))
    ensures Good(Do(s, Finish(t)))
  {
    assert PcOk(s, t);
    OnlyPcKeeps(s, Do(s, Finish(t)), t);
  }

  lemma ReadFlagClearKeeps(s: State, t: Tid)
    requires Good(s) && Guard(s, ReadFlag(t)) && s.resizing.None?
    ensures Good(s.(pc := s.pc[t := Fast(s.pc[t].fd, s.pc[t].file)]))
  {
    assert PcOk(s, t);
    OnlyPcKeeps(s, s.(pc := s.pc[t := Fast(s.pc[t].fd, s.pc[t].file)]), t);
  }

  lemma ReadFlagSetKeeps(s: State, t: Tid)
    requires Good(s) && Guard(s, ReadFlag(t)) && s.resizing.Some?
    ensures Good(s.(pc := Unwait(s.pc[t := Slow(s.pc[t].fd, s.pc[t].file)], t)))
  {
    assert PcOk(s, t);
    var m := s.(pc := s.pc[t := Slow(s.pc[t].fd, s.pc[t].file)]);
    OnlyPcKeeps(s, m, t);
    UnwaitKeeps(m, t);
  }

  lemma ReadFlagKeeps(s: State, t: Tid)
    requires Good(s) && Guard(s, ReadFlag(t))
    ensures Good(Do(s, ReadFlag(t)))
  {
    if s.resizing.None? { ReadFlagClearKeeps(s, t); } else { ReadFlagSetKeeps(s, t); }
  }

  lemma UnwaitKeeps(s: State, t: Tid)
    requires Good(s) && t in s.pc && !InSection(s.pc[t])
    ensures Good(s.(pc := Unwait(s.pc, t)))
  {
    var r := s.(pc := Unwait(s.pc, t));
    assert |r.pc| == |s.pc| by { assert |r.pc.Keys| == |s.pc.Keys|; }
    forall u | u in r.pc ensures PcOk(r, u) {
      assert PcOk(s, u);
    }
  }

  /** The store of an installer lands in the current table, in an empty slot. */
  lemma StoreLands(s: State, t: Tid)
    requires Good(s) && t in s.pc && (s.pc[t].FastAt? || s.pc[t].Slow?)
    ensures s.pc[t].FastAt? ==> s.pc[t].tab == |s.tabs| - 1
    ensures s.pc[t].fd < |Cur(s).fd| && Cur(s).fd[s.pc[t].fd].None? && Cur(s).open[s.pc[t].fd]
    ensures StoreAt(s, |s.tabs| - 1, s.pc[t].fd, s.pc[t].file).bug == false
  {
    assert PcOk(s, t);
  }

  /** A store changes one slot; nobody else's control point depends on an empty reserved slot. */
  lemma StoreOtherPc(s: State, r: State, t: Tid, u: Tid)
    requires |s.tabs| > 0 && t in s.pc && u in s.pc && Installer(s.pc[t]) && s.pc[t].fd < |Cur(s).fd|
    requires s.pc[t].FastAt? || (s.pc[t].Slow? && s.lock.None?)
    requires r == s.(tabs := SetCur(s, Cur(s).(fd := Cur(s).fd[s.pc[t].fd := Some(s.pc[t].file)])),
                     reserved := s.reserved - {s.pc[t].fd}, truth := s.truth[s.pc[t].fd := s.pc[t].file],
                     pc := s.pc[t := Idle])
    requires PcOk(s, t) && PcOk(s, u)
    ensures PcOk(r, u)
  {
    if u != t {
      var p := s.pc[u];
      if p.Syncing? { assert LockFreeIn(r.pc, p.wait); }
      if p.Synced? || p.Copying? || p.Published? { assert LockFreeIn(r.pc, {}); }
    }
  }

  lemma StoreTables(s: State, r: State, fd: nat, file: File)
    requires TablesOk(s) && fd < |Cur(s).fd| && Cur(s).fd[fd].None? && Cur(s).open[fd]
    requires r.tabs == SetCur(s, Cur(s).(fd := Cur(s).fd[fd := Some(file)]))
    requires r.next == s.next && r.reserved == s.reserved - {fd} && r.truth == s.truth[fd := file]
    requires r.pc.Keys == s.pc.Keys
    ensures TablesOk(r)
  {
    SameBits(Cur(s), Cur(r));
  }

  lemma StoreAtKeeps(s: State, t: Tid)
    requires Good(s) && t in s.pc && (s.pc[t].FastAt? || (s.pc[t].Slow? && s.lock.None?))
    ensures Good(StoreAt(s, |s.tabs| - 1, s.pc[t].fd, s.pc[t].file).(pc := s.pc[t := Idle]))
  {
    var p := s.pc[t];
    var r := StoreAt(s, |s.tabs| - 1, p.fd, p.file).(pc := s.pc[t := Idle]);
    StoreLands(s, t);
    assert PcOk(s, t);
    assert r.pc.Keys == s.pc.Keys;
    assert |r.pc| == |s.pc| by { assert |r.pc.Keys| == |s.pc.Keys|; }
    StoreTables(s, r, p.fd, p.file);
    forall u | u in r.pc ensures PcOk(r, u) {
      StoreOtherPc(s, r, t, u);
    }
  }

  lemma StoreKeeps(s: State, e: Event)
    requires Good(s) && Guard(s, e) && (e.Store? || e.SlowStore?)
    ensures Good(Do(s, e))
  {
    var t := e.t;
    StoreLands(s, t);
    StoreAtKeeps(s, t);
    if e.Store? {
      UnwaitKeeps(StoreAt(s, |s.tabs| - 1, s.pc[t].fd, s.pc[t].file).(pc := s.pc[t := Idle]), t);
    }
  }

  lemma ReadCountKeeps(s: State, t: Tid)
    requires Good(s) && Guard(s, ReadCount(t))
    ensures Good(Do(s, ReadCount(t)))
  {
    assert PcOk(s, t);
    if s.count <= 1 { OnlyUser(s.pc, t); }
    OnlyPcKeeps(s, Do(s, ReadCount(t)), t);
  }

  /** With one reference there is one user, who is the grower and therefore not installing. */
  lemma OnlyUser(pc: map<Tid, PC>, t: Tid)
    requires t in pc && |pc| <= 1
    ensures pc.Keys == {t}
  {
    assert |pc.Keys - {t}| == |pc.Keys| - 1;
    assert pc.Keys == (pc.Keys - {t}) + {t};
  }

  lemma RelockKeeps(s: State, t: Tid, size: nat, mem: bool)
    requires Good(s) && Guard(s, Relock(t, size, mem))
    ensures Good(Do(s, Relock(t, size, mem)))
  {
    assert PcOk(s, t);
    OnlyPcKeeps(s, Do(s, Relock(t, size, mem)), t);
  }

  /** What is published is exactly the grown current table: no slot changed after it was read. */
  lemma PublishIsGrow(s: State, t: Tid)
    requires Good(s) && Guard(s, Publish(t))
    ensures s.pc[t].size >= |Cur(s).open| && s.pc[t].size % 64 == 0
    ensures Do(s, Publish(t)) == s.(tabs := s.tabs + [Grow(Cur(s), s.pc[t].size)], pc := s.pc[t := Published])
  {
    assert PcOk(s, t);
    var g := Grow(Cur(s), s.pc[t].size);
    assert s.pc[t].got == Cur(s).fd;
    assert g.fd == Cur(s).fd + g.fd[|Cur(s).fd|..];
  }

  lemma PublishKeeps(s: State, t: Tid)
    requires Good(s) && Guard(s, Publish(t))
    ensures Good(Do(s, Publish(t)))
  {
    PublishIsGrow(s, t);
    var r := s.(tabs := s.tabs + [Grow(Cur(s), s.pc[t].size)], pc := s.pc[t := Published]);
    GrowKeeps(Cur(s), s.pc[t].size);
    assert PcOk(s, t);
    assert r.pc.Keys == s.pc.Keys;
    assert |r.pc| == |s.pc| by { assert |r.pc.Keys| == |s.pc.Keys|; }
    assert TablesOk(r);
    forall u | u in r.pc ensures PcOk(r, u) {
      assert PcOk(s, u);
    }
  }

  /** What a file_lock section of a thread that does nothing else may do. */
  ghost predicate LockedFrame(s: State, r: State) {
    && !r.bug && |r.tabs| == |s.tabs| && |s.tabs| > 0 && |Cur(r).open| == |Cur(s).open| && TablesOk(r)
    && r.pc == s.pc && r.lock == s.lock == None && r.resizing == s.resizing && r.count == s.count
    && forall t :: t in s.pc && Installer(s.pc[t]) ==> s.pc[t].fd in r.reserved && r.reserved[s.pc[t].fd] == t
  }

  lemma LockedFrameKeeps(s: State, r: State)
    requires Good(s) && LockedFrame(s, r)
    ensures Good(r)
  {
    forall t | t in r.pc ensures PcOk(r, t) {
      assert PcOk(s, t);
    }
  }

  /** Reservations are private: whoever is installing still holds its own after others reserve or put. */
  lemma OwnReservations(s: State, fd: nat, t: Tid)
    requires Good(s) && t in s.pc && s.pc[t].Idle?
    requires fd in s.reserved ==> s.reserved[fd] == t
    ensures forall u :: u in s.pc && Installer(s.pc[u]) ==>
              s.pc[u].fd in s.reserved && s.reserved[s.pc[u].fd] == u && s.pc[u].fd != fd
  {
    forall u | u in s.pc && Installer(s.pc[u])
      ensures s.pc[u].fd in s.reserved && s.reserved[s.pc[u].fd] == u && s.pc[u].fd != fd
    {
      assert PcOk(s, u);
    }
  }

  lemma ReservedKeeps(s: State, t: Tid, start: nat, end: nat, cloexec: bool)
    requires Good(s) && Guard(s, Event.Reserved(t, start, end, cloexec))
    ensures Good(Do(s, Event.Reserved(t, start, end, cloexec)))
  {
    var k := NextFree(Cur(s).open, start);
    ReserveKeeps(Now(s), start, k, cloexec);
    OwnReservations(s, k, t);
    LockedFrameKeeps(s, Do(s, Event.Reserved(t, start, end, cloexec)));
  }

  lemma PutKeeps(s: State, t: Tid, fd: nat)
    requires Good(s) && Guard(s, PutUnused(t, fd))
    ensures Good(Do(s, PutUnused(t, fd)))
  {
    ApplyKeeps(Now(s), OpPut(fd));
    OwnReservations(s, fd, t);
    LockedFrameKeeps(s, Do(s, PutUnused(t, fd)));
  }

  lemma CloseKeeps(s: State, t: Tid, fd: nat)
    requires Good(s) && Guard(s, CloseFd(t, fd))
    ensures Good(Do(s, CloseFd(t, fd)))
  {
    ApplyKeeps(Now(s), OpClose(fd));
    forall u | u in s.pc ensures PcOk(s, u) {}
    LockedFrameKeeps(s, Do(s, CloseFd(t, fd)));
  }

  lemma DupToTables(s: State, fd: nat, file: File, cloexec: bool)
    requires TablesOk(s) && fd < |Cur(s).open|
    ensures var d := DupInto(Now(s), fd, file, cloexec);
            d.0.Ok? ==> d.1.next == s.next && TablesOk(s.(tabs := SetCur(s, d.1.t), truth := s.truth[fd := file]))
  {
    DupIntoKeeps(Now(s), fd, file, cloexec);
  }

  lemma DupToKeeps(s: State, t: Tid, fd: nat, file: File, cloexec: bool)
    requires Good(s) && Guard(s, DupTo(t, fd, file, cloexec))
    ensures Good(Do(s, DupTo(t, fd, file, cloexec)))
  {
    DupToTables(s, fd, file, cloexec);
    forall u | u in s.pc ensures PcOk(s, u) {}
    LockedFrameKeeps(s, Do(s, DupTo(t, fd, file, cloexec)));
  }

  lemma LeaveKeeps(s: State, t: Tid)
    requires Good(s) && Guard(s, Leave(t))
    ensures Good(Do(s, Leave(t)))
  {
    var r := Do(s, Leave(t));
    assert PcOk(s, t);
    assert r.pc.Keys == s.pc.Keys - {t};
    assert |r.pc.Keys| == |s.pc.Keys| - 1;
    assert Now(r) == Now(s);
    forall u | u in r.pc ensures PcOk(r, u) {
      assert PcOk(s, u);
    }
  }

  lemma ShareKeeps(s: State, t: Tid, u: Tid)
    requires Good(s) && Guard(s, Share(t, u))
    ensures Good(Do(s, Share(t, u)))
  {
    var r := Do(s, Share(t, u));
    assert r.pc.Keys == s.pc.Keys + {u};
    assert Now(r) == Now(s);
    forall v | v in r.pc ensures PcOk(r, v) {
      if v in s.pc {
        assert PcOk(s, v);
      } else {
        NotGrowing(s, v);
      }
    }
  }

  lemma NotGrowing(s: State, v: Tid)
    requires Good(s) && v !in s.pc
    ensures s.resizing != Some(v) && s.lock != Some(v)
  {
  }

  lemma RefKeeps(s: State, e: Event)
    requires Good(s) && Guard(s, e) && (e.GetRef? || e.PutRef?)
    ensures Good(Do(s, e))
  {
    var r := Do(s, e);
    forall v | v in r.pc ensures PcOk(r, v) {
      assert PcOk(s, v);
    }
  }

  lemma EventKeeps(s: State, e: Event)
    requires Good(s) && Guard(s, e)
    ensures Good(Do(s, e))
  {
    match e
    case Enter(t, fd, file) => EnterKeeps(s, t, fd, file);
    case ReadFlag(t) => ReadFlagKeeps(s, t);
    case LoadTable(t) => LoadTableKeeps(s, t);
    case Store(t) => StoreKeeps(s, e);
    case SlowStore(t) => StoreKeeps(s, e);
    case StartGrow(t, nr) => StartGrowKeeps(s, t, nr);
    case ReadCount(t) => ReadCountKeeps(s, t);
    case EndSync(t) => EndSyncKeeps(s, t);
    case Relock(t, size, mem) => RelockKeeps(s, t, size, mem);
    case CopySlot(t) => CopySlotKeeps(s, t);
    case Publish(t) => PublishKeeps(s, t);
    case Finish(t) => FinishKeeps(s, t);
    case Reserved(t, start, end, cloexec) => ReservedKeeps(s, t, start, end, cloexec);
    case PutUnused(t, fd) => PutKeeps(s, t, fd);
    case CloseFd(t, fd) => CloseKeeps(s, t, fd);
    case DupTo(t, fd, file, cloexec) => DupToKeeps(s, t, fd, file, cloexec);
    case Share(t, u) => ShareKeeps(s, t, u);
    case Leave(t) => LeaveKeeps(s, t);
    case GetRef => RefKeeps(s, e);
    case PutRef => RefKeeps(s, e);
  }

  // ---- whole runs ----

  function InitState(t: Tid): (s: State)
  {
    State([InitFiles().t], 0, None, None, map[t := Idle], 1, map[], map[], false)
  }

  ghost predicate Run(states: seq<State>, events: seq<Event>) {
    && |states| == |events| + 1
    && (exists t :: states[0] == InitState(t))
    && forall i :: 0 <= i < |events| ==>
         && |states[i].tabs| > 0 && Shape(Cur(states[i])) && states[i].count >= |states[i].pc|
         && Guard(states[i], events[i]) && states[i + 1] == Do(states[i], events[i])
  }

  /**
   * In every interleaving: no BUG_ON fires, at most one thread grows the table, and the current table
   * holds exactly the files that were installed and not closed since.
   */
  lemma {:induction false} NothingLost(states: seq<State>, events: seq<Event>, n: nat)
    requires Run(states, events) && n < |states|
    ensures Good(states[n])
    ensures !states[n].bug
    ensures forall fd :: fd in states[n].truth <==>
              0 <= fd < |Cur(states[n]).fd| && Cur(states[n]).fd[fd].Some?
    ensures forall fd :: fd in states[n].truth ==> Cur(states[n]).fd[fd] == Some(states[n].truth[fd])
    ensures forall t, u ::
              (t in states[n].pc && u in states[n].pc && Grower(states[n].pc[t]) && Grower(states[n].pc[u])) ==> t == u
  {
    if n == 0 {
      var t :| states[0] == InitState(t);
      assert PcOk(states[0], t);
    } else {
      NothingLost(states, events, n - 1);
      EventKeeps(states[n - 1], events[n - 1]);
    }
    forall t | t in states[n].pc ensures PcOk(states[n], t) {}
  }
}
