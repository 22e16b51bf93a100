/**
 * The descriptor table of a process as a value (fs/file.c): the fd array, the open bitmap, the
 * second-level bitmap of full words, the close-on-exec bitmap and the next_fd hint.
 */
module FdModel {
  import opened Common

  type File = nat

  datatype Errno = EMFILE | ENOMEM | EBADF | EBUSY

  datatype Table = Table(open: seq<bool>, full: seq<bool>, cloexec: seq<bool>, fd: seq<Option<File>>)

  datatype Files = Files(t: Table, next: nat)

  const NR_OPEN_DEFAULT: nat := BITS_PER_LONG

  // ---- words of 64 bits ----

  predicate WholeWords(n: nat) { n % 64 == 0 }

  /** The word of the bitmap that holds bit `fd`. */
  function WordOf(fd: nat): (w: nat)
    ensures 64 * w <= fd < 64 * w + 64
  {
    fd / 64
  }

  /** Number of second-level bits kept for `max` descriptors: whole longs, so there is padding. */
  function BitBits(max: nat): nat {
    AlignUp((max + BITS_PER_LONG - 1) / BITS_PER_LONG, BITS_PER_LONG)
  }

  lemma BitBitsMonotone(a: nat, b: nat)
    requires a <= b
    ensures BitBits(a) <= BitBits(b)
    ensures WholeWords(a) ==> a <= 64 * BitBits(a)
  {
    var p, q := (a + 63) / 64, (b + 63) / 64;
    AlignUpLeast(p, 64, AlignUp(q, 64));
  }

  /** A word lies inside or outside a whole number of words. */
  lemma WordsOf(count: nat, w: nat)
    requires WholeWords(count)
    ensures 64 * w + 64 <= count || count <= 64 * w
  {
  }

  lemma AreWholeWords(w: nat)
    ensures WholeWords(64 * w)
  {
  }

  /** The word of a descriptor of the table is a word of the table and has its second-level bit. */
  lemma WordFits(n: nat, fd: nat)
    requires WholeWords(n) && fd < n
    ensures 64 * WordOf(fd) + 64 <= n && WordOf(fd) < BitBits(n)
  {
    hide BitBits, WholeWords, WordOf;
    WordsOf(n, WordOf(fd));
    BitBitsMonotone(n, n);
  }

  predicate WordFull(open: seq<bool>, w: nat)
    requires 64 * w + 64 <= |open|
  {
    forall i :: 64 * w <= i < 64 * w + 64 ==> open[i]
  }

  ghost predicate Shape(t: Table) {
    && |t.open| == |t.cloexec| == |t.fd|
    && WholeWords(|t.open|) && |t.open| > 0
    && |t.full| == BitBits(|t.open|)
  }

  /** A second-level bit is set exactly when it stands for a real word and that word is full. */
  ghost predicate FullExact(t: Table)
    requires Shape(t)
  {
    forall w :: 0 <= w < |t.full| ==> (t.full[w] <==> 64 * w + 64 <= |t.open| && WordFull(t.open, w))
  }

  ghost predicate TableInv(t: Table) {
    && Shape(t)
    && FullExact(t)
    && forall i :: 0 <= i < |t.fd| && t.fd[i].Some? ==> t.open[i]
  }

  ghost predicate Inv(f: Files) {
    && TableInv(f.t)
    && f.next <= |f.t.open|
    && forall i :: 0 <= i < f.next ==> f.t.open[i]
  }

  /** The reference definition of allocation: the least descriptor from `start` that is not open. */
  function NextFree(open: seq<bool>, start: nat): (k: nat)
    ensures start <= k
    ensures k < |open| ==> !open[k]
    ensures start < k ==> k <= |open|
    ensures forall i :: start <= i < k ==> open[i]
    decreases |open| - start
  {
    if start >= |open| || !open[start] then start else NextFree(open, start + 1)
  }

  lemma NextFreeUnique(open: seq<bool>, start: nat, k: nat)
    requires start <= k && (k < |open| ==> !open[k]) && (start < k ==> k <= |open|)
    requires forall i :: start <= i < k ==> open[i]
    ensures k == NextFree(open, start)
  {
  }

  // ---- growing ----

  function RoundupPow2(n: nat, p: nat): (r: nat)
    requires p > 0
    ensures r >= n && r >= p
    decreases if p >= n then 0 else n - p
  {
    if p >= n then p else RoundupPow2(n, 2 * p)
  }

  /** alloc_fdtable's choice of size for descriptor `nr` under sysctl_nr_open. */
  function TableSize(nr: nat, sysctl: nat): (m: nat)
    requires sysctl > 0
    ensures WholeWords(m) && m > 0
    ensures nr < sysctl ==> nr < m
  {
    var n := RoundupPow2(nr / 128 + 1, 1) * 128;
    if n > sysctl then ((sysctl - 1) / 64) * 64 + 64 else n
  }

  function Falses(n: nat): (s: seq<bool>)
    ensures |s| == n && forall i :: 0 <= i < n ==> !s[i]
  {
    seq(n, _ => false)
  }

  /** copy_fdtable: everything of `t`, then clear slots up to `m`. */
  function Grow(t: Table, m: nat): (r: Table)
    requires Shape(t) && WholeWords(m) && m >= |t.open|
    ensures Shape(r) && |r.open| == m
  {
    BitBitsMonotone(|t.open|, m);
    Table(t.open + Falses(m - |t.open|),
          t.full + Falses(BitBits(m) - |t.full|),
          t.cloexec + Falses(m - |t.open|),
          t.fd + seq(m - |t.open|, _ => None))
  }

  lemma GrowFull(t: Table, m: nat, w: nat)
    requires Shape(t) && FullExact(t) && WholeWords(m) && m >= |t.open|
    requires w < |Grow(t, m).full|
    ensures var r := Grow(t, m); r.full[w] <==> 64 * w + 64 <= |r.open| && WordFull(r.open, w)
  {
    hide WordOf, BitBits, WholeWords;
    var r := Grow(t, m);
    BitBitsMonotone(|t.open|, m);
    WordsOf(|t.open|, w);
    if 64 * w + 64 <= |t.open| {
      assert forall i :: 64 * w <= i < 64 * w + 64 ==> r.open[i] == t.open[i];
    } else if 64 * w + 64 <= |r.open| {
      assert !r.open[64 * w];
    }
  }

  lemma GrowKeeps(t: Table, m: nat)
    requires TableInv(t) && WholeWords(m) && m >= |t.open|
    ensures TableInv(Grow(t, m))
    ensures forall k :: NextFree(t.open, k) == NextFree(Grow(t, m).open, k)
  {
    hide WordOf, BitBits, WholeWords;
    var r := Grow(t, m);
    forall w | 0 <= w < |r.full|
      ensures r.full[w] <==> 64 * w + 64 <= |r.open| && WordFull(r.open, w)
    {
      GrowFull(t, m, w);
    }
    forall k: nat ensures NextFree(t.open, k) == NextFree(r.open, k) {
      NextFreeUnique(r.open, k, NextFree(t.open, k));
    }
  }

  /** expand_files and expand_fdtable; `lim2` is sysctl_nr_open when alloc_fdtable reads it. */
  function Expand(f: Files, nr: nat, lim: nat, lim2: nat, mem: bool): (r: Result<Files, Errno>)
    requires Shape(f.t) && lim2 > 0
    ensures r.Ok? ==> Shape(r.value.t) && nr < |r.value.t.open| && r.value.next == f.next
  {
    if nr < |f.t.open| then Ok(f)
    else if nr >= lim then Err(EMFILE)
    else if !mem then Err(ENOMEM)
    else if TableSize(nr, lim2) <= nr then Err(EMFILE)
    else Ok(f.(t := Grow(f.t, TableSize(nr, lim2))))
  }

  // ---- the bitmap primitives ----

  function SetOpen(t: Table, fd: nat): (r: Table)
    requires Shape(t) && fd < |t.open|
    ensures Shape(r)
  {
    var open := t.open[fd := true];
    WordFits(|t.open|, fd);
    hide WordOf, BitBits, WholeWords;
    t.(open := open, full := if WordFull(open, WordOf(fd)) then t.full[WordOf(fd) := true] else t.full)
  }

  function ClearOpen(t: Table, fd: nat): (r: Table)
    requires Shape(t) && fd < |t.open|
    ensures Shape(r)
  {
    WordFits(|t.open|, fd);
    hide WordOf, BitBits, WholeWords;
    t.(open := t.open[fd := false], full := t.full[WordOf(fd) := false])
  }

  lemma SetOpenKeeps(t: Table, fd: nat)
    requires TableInv(t) && fd < |t.open|
    ensures TableInv(SetOpen(t, fd))
  {
    hide WordOf, BitBits, WholeWords;
    var r := SetOpen(t, fd);
    WordFits(|t.open|, fd);
    forall w | 0 <= w < |r.full|
      ensures r.full[w] <==> 64 * w + 64 <= |r.open| && WordFull(r.open, w)
    {
      if 64 * w + 64 <= |t.open| && w != WordOf(fd) {
        assert forall i :: 64 * w <= i < 64 * w + 64 ==> r.open[i] == t.open[i];
      }
    }
  }

  lemma ClearOpenKeeps(t: Table, fd: nat)
    requires TableInv(t) && fd < |t.open| && t.fd[fd].None?
    ensures TableInv(ClearOpen(t, fd))
  {
    hide WordOf, BitBits, WholeWords;
    ClearOpenFull(t, fd);
  }

  lemma ClearOpenFull(t: Table, fd: nat)
    requires Shape(t) && FullExact(t) && fd < |t.open|
    ensures FullExact(ClearOpen(t, fd))
  {
    hide WordOf, BitBits, WholeWords;
    var r := ClearOpen(t, fd);
    WordFits(|t.open|, fd);
    forall w | 0 <= w < |r.full|
      ensures r.full[w] <==> 64 * w + 64 <= |r.open| && WordFull(r.open, w)
    {
      if 64 * w + 64 <= |t.open| {
        if w != WordOf(fd) {
          assert forall i :: 64 * w <= i < 64 * w + 64 ==> r.open[i] == t.open[i];
        } else {
          assert !r.open[fd];
        }
      }
    }
  }

  // ---- operations ----

  /** What __alloc_fd writes once it has settled on descriptor `k`. */
  function Reserve(f: Files, start: nat, k: nat, cloexec: bool): (r: Files)
    requires Shape(f.t) && k < |f.t.open|
    ensures Shape(r.t)
  {
    var t := SetOpen(f.t, k);
    Files(t.(cloexec := t.cloexec[k := cloexec], fd := t.fd[k := None]),
          if start <= f.next then k + 1 else f.next)
  }

  /** __alloc_fd in terms of the reference scan, with no hint and no second-level bitmap. */
  function Alloc(f: Files, start: nat, end: nat, cloexec: bool, lim: nat, lim2: nat, mem: bool):
    (r: (Result<nat, Errno>, Files))
    requires Shape(f.t) && lim2 > 0
  {
    var k := NextFree(f.t.open, start);
    if k >= end then (Err(EMFILE), f)
    else match Expand(f, k, lim, lim2, mem)
      case Err(e) => (Err(e), f)
      case Ok(g) => (Ok(k), Reserve(g, start, k, cloexec))
  }

  /** __put_unused_fd. */
  function Put(f: Files, fd: nat): (r: Files)
    requires Shape(f.t) && fd < |f.t.open|
  {
    Files(ClearOpen(f.t, fd), if fd < f.next then fd else f.next)
  }

  function Install(f: Files, fd: nat, file: File): (r: Files)
    requires Shape(f.t) && fd < |f.t.open|
  {
    f.(t := f.t.(fd := f.t.fd[fd := Some(file)]))
  }

  function Close(f: Files, fd: nat): (r: (Result<File, Errno>, Files))
    requires Shape(f.t)
  {
    if fd >= |f.t.open| || f.t.fd[fd].None? then (Err(EBADF), f)
    else (Ok(f.t.fd[fd].value), Put(f.(t := f.t.(fd := f.t.fd[fd := None])), fd))
  }

  /** do_dup2: refuse a reserved slot that is not filled yet, otherwise take the slot over. */
  function DupInto(f: Files, fd: nat, file: File, cloexec: bool): (r: (Result<Option<File>, Errno>, Files))
    requires Shape(f.t) && fd < |f.t.open|
  {
    if f.t.fd[fd].None? && f.t.open[fd] then (Err(EBUSY), f)
    else
      var t := SetOpen(f.t.(fd := f.t.fd[fd := Some(file)]), fd);
      (Ok(f.t.fd[fd]), f.(t := t.(cloexec := t.cloexec[fd := cloexec])))
  }

  /** replace_fd below the resource limit: expand_files followed by do_dup2. */
  function Dup2(f: Files, fd: nat, file: File, cloexec: bool, lim: nat, lim2: nat, mem: bool):
    (r: (Result<Option<File>, Errno>, Files))
    requires Shape(f.t) && lim2 > 0
  {
    match Expand(f, fd, lim, lim2, mem)
    case Err(e) => (Err(e), f)
    case Ok(g) => DupInto(g, fd, file, cloexec)
  }

  /** replace_fd: without a file it closes, and a descriptor at or above RLIMIT_NOFILE is refused first. */
  function Replace(f: Files, fd: nat, file: Option<File>, cloexec: bool, rlimit: nat, lim: nat, lim2: nat, mem: bool):
    (r: (Result<Option<File>, Errno>, Files))
    requires Shape(f.t) && lim2 > 0
  {
    if file.None? then
      match Close(f, fd)
      case (Ok(was), g) => (Ok(Some(was)), g)
      case (Err(e), g) => (Err(e), g)
    else if fd >= rlimit then (Err(EBADF), f)
    else Dup2(f, fd, file.value, cloexec, lim, lim2, mem)
  }

  predicate Doomed(t: Table, i: nat)
    requires Shape(t) && i < |t.open|
  {
    t.cloexec[i] && t.fd[i].Some?
  }

  function FirstDoomed(t: Table, i: nat): (k: nat)
    requires Shape(t) && i <= |t.open|
    ensures i <= k <= |t.open| && (k < |t.open| ==> Doomed(t, k))
    ensures forall j :: i <= j < k ==> !Doomed(t, j)
    decreases |t.open| - i
  {
    if i == |t.open| || Doomed(t, i) then i else FirstDoomed(t, i + 1)
  }

  function FullOf(open: seq<bool>): (r: seq<bool>) {
    seq(BitBits(|open|), w requires 0 <= w => 64 * w + 64 <= |open| && WordFull(open, w))
  }

  /** do_close_on_exec for the descriptors below `n`; all of them when `n` is the table size. */
  function ExecBelow(f: Files, n: nat): (r: Files)
    requires Shape(f.t) && n <= |f.t.open|
    ensures Shape(r.t)
  {
    var t := f.t;
    var m := |t.open|;
    var open := seq(m, i requires 0 <= i < m => t.open[i] && !(i < n && Doomed(t, i)));
    var first := FirstDoomed(t, 0);
    Files(Table(open,
                FullOf(open),
                seq(m, i requires 0 <= i < m => t.cloexec[i] && i >= n),
                seq(m, i requires 0 <= i < m => if i < n && Doomed(t, i) then None else t.fd[i])),
          if first < n && first < f.next then first else f.next)
  }

  function Exec(f: Files): (r: Files)
    requires Shape(f.t)
  {
    ExecBelow(f, |f.t.open|)
  }

  lemma FullOfExact(t: Table)
    requires Shape(t)
    ensures FullExact(t) <==> t.full == FullOf(t.open)
  {
    hide WordOf, BitBits, WholeWords;
  }

  lemma ExecKeeps(f: Files, n: nat)
    requires Inv(f) && n <= |f.t.open|
    ensures Inv(ExecBelow(f, n))
  {
    hide WordOf, BitBits, WholeWords;
    FullOfExact(ExecBelow(f, n).t);
  }

  /** One more descriptor: either it is closed and the hint may drop to it, or only its flag goes. */
  lemma ExecBelowStep(f: Files, n: nat)
    requires Inv(f) && n < |f.t.open|
    ensures var a, b := ExecBelow(f, n), ExecBelow(f, n + 1);
            if Doomed(f.t, n) then
              && WordOf(n) < |a.t.full|
              && b.t.open == a.t.open[n := false] && b.t.full == a.t.full[WordOf(n) := false]
              && b.t.fd == a.t.fd[n := None] && b.next == (if n < a.next then n else a.next)
            else
              b.t.open == a.t.open && b.t.full == a.t.full && b.t.fd == a.t.fd && b.next == a.next
  {
    hide WordOf, BitBits, WholeWords;
    var a, b := ExecBelow(f, n), ExecBelow(f, n + 1);
    ExecKeeps(f, n);
    ExecKeeps(f, n + 1);
    if Doomed(f.t, n) {
      WordFits(|f.t.open|, n);
      assert b.t.open == a.t.open[n := false];
      ClearOpenFull(a.t, n);
      FullOfExact(ClearOpen(a.t, n));
    } else {
      assert b.t.open == a.t.open;
    }
  }

  /** Halfway through a word: closed below `n`, but the flags are already gone below `m`. */
  function ExecPending(f: Files, n: nat, m: nat): (r: Files)
    requires Shape(f.t) && n <= m <= |f.t.open|
    ensures Shape(r.t)
    ensures n == m ==> r == ExecBelow(f, n)
  {
    var e := ExecBelow(f, n);
    e.(t := e.t.(cloexec := ExecBelow(f, m).t.cloexec))
  }

  lemma ExecBelowZero(f: Files)
    requires Inv(f)
    ensures ExecBelow(f, 0) == f
  {
    hide WordOf, BitBits, WholeWords;
    var r := ExecBelow(f, 0);
    FullOfExact(f.t);
    assert r.t.open == f.t.open && r.t.full == f.t.full && r.t.cloexec == f.t.cloexec && r.t.fd == f.t.fd;
  }

  // ---- fork ----

  function InstalledBelow(fd: seq<Option<File>>, n: nat): multiset<File>
    requires n <= |fd|
  {
    if n == 0 then multiset{}
    else InstalledBelow(fd, n - 1) + (if fd[n - 1].Some? then multiset{fd[n - 1].value} else multiset{})
  }

  /** What dup_fd promises of the child table `c` when the first `copied` descriptors of `p` are copied. */
  ghost predicate IsFork(p: Table, c: Table, copied: nat) {
    && TableInv(p) && TableInv(c) && copied <= |p.open| && copied <= |c.open|
    && (forall i :: 0 <= i < |c.open| ==> (c.open[i] <==> i < |p.fd| && p.fd[i].Some?))
    && (forall i :: 0 <= i < |c.open| ==> c.fd[i] == if i < |p.fd| then p.fd[i] else None)
    && (forall i :: |c.open| <= i < |p.open| ==> p.fd[i].None?)
    && (forall i :: 0 <= i < |c.open| ==> (c.cloexec[i] <==> i < copied && p.cloexec[i]))
    && (forall i :: copied <= i < |p.open| ==> !p.open[i])
  }

  /** `c` starts with `count` bits of `p` and is clear after them, at both levels. */
  ghost predicate CopiedBits(p: Table, c: Table, count: nat) {
    && Shape(p) && Shape(c) && WholeWords(count) && count <= |p.open| && count <= |c.open|
    && BitBits(count) <= |p.full| && BitBits(count) <= |c.full|
    && c.open == p.open[..count] + Falses(|c.open| - count)
    && c.full == p.full[..BitBits(count)] + Falses(|c.full| - BitBits(count))
    && c.cloexec == p.cloexec[..count] + Falses(|c.open| - count)
  }

  lemma CopiedWord(p: Table, c: Table, count: nat, w: nat)
    requires TableInv(p) && CopiedBits(p, c, count) && w < |c.full|
    requires forall i :: count <= i < |p.open| ==> !p.open[i]
    ensures c.full[w] <==> 64 * w + 64 <= |c.open| && WordFull(c.open, w)
  {
    hide BitBits, Shape, WholeWords;
    BitBitsMonotone(count, count);
    WordsOf(count, w);
    if 64 * w + 64 <= count {
      assert forall i :: 64 * w <= i < 64 * w + 64 ==> c.open[i] == p.open[i];
      assert c.full[w] == p.full[w];
    } else {
      if 64 * w + 64 <= |p.open| { assert !p.open[64 * w]; }
      if 64 * w + 64 <= |c.open| { assert !c.open[64 * w]; }
    }
  }

  /** Copying whole longs of the second level leaves it exact, because nothing is open past `count`. */
  lemma CopiedFullExact(p: Table, c: Table, count: nat)
    requires TableInv(p) && CopiedBits(p, c, count)
    requires forall i :: count <= i < |p.open| ==> !p.open[i]
    ensures FullExact(c)
  {
    hide WordOf, BitBits, WholeWords;
    forall w | 0 <= w < |c.full|
      ensures c.full[w] <==> 64 * w + 64 <= |c.open| && WordFull(c.open, w)
    {
      CopiedWord(p, c, count, w);
    }
  }

  // ---- histories ----

  datatype Op =
    | OpAlloc(start: nat, end: nat, cloexec: bool, lim: nat, lim2: nat, mem: bool)
    | OpPut(fd: nat)
    | OpInstall(fd: nat, file: File)
    | OpClose(fd: nat)
    | OpDup2(fd: nat, file: File, cloexec: bool, lim: nat, lim2: nat, mem: bool)
    | OpSetCloexec(fd: nat, flag: bool)
    | OpExec

  /** What callers promise: put and install only what they reserved and have not installed yet. */
  predicate Enabled(f: Files, op: Op)
    requires Shape(f.t)
  {
    match op
    case OpAlloc(_, _, _, _, lim2, _) => lim2 > 0
    case OpPut(fd) => fd < |f.t.open| && f.t.open[fd] && f.t.fd[fd].None?
    case OpInstall(fd, _) => fd < |f.t.open| && f.t.open[fd] && f.t.fd[fd].None?
    case OpDup2(_, _, _, _, lim2, _) => lim2 > 0
    case OpSetCloexec(fd, _) => fd < |f.t.open|
    case _ => true
  }

  function Apply(f: Files, op: Op): (r: Files)
    requires Shape(f.t) && Enabled(f, op)
  {
    match op
    case OpAlloc(start, end, cloexec, lim, lim2, mem) => Alloc(f, start, end, cloexec, lim, lim2, mem).1
    case OpPut(fd) => Put(f, fd)
    case OpInstall(fd, file) => Install(f, fd, file)
    case OpClose(fd) => Close(f, fd).1
    case OpDup2(fd, file, cloexec, lim, lim2, mem) => Dup2(f, fd, file, cloexec, lim, lim2, mem).1
    case OpSetCloexec(fd, flag) => f.(t := f.t.(cloexec := f.t.cloexec[fd := flag]))
    case OpExec => Exec(f)
  }

  lemma ExpandKeeps(f: Files, nr: nat, lim: nat, lim2: nat, mem: bool)
    requires Inv(f) && lim2 > 0
    ensures var r := Expand(f, nr, lim, lim2, mem);
            r.Ok? ==> Inv(r.value) && forall k :: NextFree(f.t.open, k) == NextFree(r.value.t.open, k)
  {
    hide WordOf, BitBits, WholeWords;
    if Expand(f, nr, lim, lim2, mem).Ok? && nr >= |f.t.open| {
      GrowKeeps(f.t, TableSize(nr, lim2));
    }
  }

  lemma ReserveKeeps(f: Files, start: nat, k: nat, cloexec: bool)
    requires Inv(f) && k == NextFree(f.t.open, start) && k < |f.t.open|
    ensures Inv(Reserve(f, start, k, cloexec))
  {
    hide WordOf, BitBits, WholeWords;
    SetOpenKeeps(f.t, k);
    var t := SetOpen(f.t, k);
    var r := Reserve(f, start, k, cloexec);
    assert FullExact(r.t) by { assert r.t.open == t.open && r.t.full == t.full; }
  }

  lemma AllocKeeps(f: Files, start: nat, end: nat, cloexec: bool, lim: nat, lim2: nat, mem: bool)
    requires Inv(f) && lim2 > 0
    ensures Inv(Alloc(f, start, end, cloexec, lim, lim2, mem).1)
  {
    hide WordOf, BitBits, WholeWords;
    var k := NextFree(f.t.open, start);
    ExpandKeeps(f, k, lim, lim2, mem);
    var e := Expand(f, k, lim, lim2, mem);
    if k < end && e.Ok? {
      ReserveKeeps(e.value, start, k, cloexec);
    }
  }

  lemma SameBits(t: Table, u: Table)
    requires TableInv(t) && Shape(u) && u.open == t.open && u.full == t.full
    requires forall i :: 0 <= i < |u.fd| && u.fd[i].Some? ==> u.open[i]
    ensures TableInv(u)
  {
    hide WordOf, BitBits, WholeWords;
  }

  lemma DupIntoKeeps(f: Files, fd: nat, file: File, cloexec: bool)
    requires Inv(f) && fd < |f.t.open|
    ensures Inv(DupInto(f, fd, file, cloexec).1)
  {
    hide WordOf, BitBits, WholeWords;
    if !(f.t.fd[fd].None? && f.t.open[fd]) {
      SetOpenKeeps(f.t, fd);
      SameBits(SetOpen(f.t, fd), DupInto(f, fd, file, cloexec).1.t);
    }
  }

  lemma Dup2Keeps(f: Files, fd: nat, file: File, cloexec: bool, lim: nat, lim2: nat, mem: bool)
    requires Inv(f) && lim2 > 0
    ensures Inv(Dup2(f, fd, file, cloexec, lim, lim2, mem).1)
  {
    hide WordOf, BitBits, WholeWords;
    ExpandKeeps(f, fd, lim, lim2, mem);
    var e := Expand(f, fd, lim, lim2, mem);
    if e.Ok? {
      DupIntoKeeps(e.value, fd, file, cloexec);
    }
  }

  lemma ApplyKeeps(f: Files, op: Op)
    requires Inv(f) && Enabled(f, op)
    ensures Inv(Apply(f, op))
  {
    hide WordOf, BitBits, WholeWords;
    match op
    case OpAlloc(start, end, cloexec, lim, lim2, mem) => AllocKeeps(f, start, end, cloexec, lim, lim2, mem);
    case OpPut(fd) => ClearOpenKeeps(f.t, fd);
    case OpInstall(fd, file) => SameBits(f.t, Install(f, fd, file).t);
    case OpClose(fd) =>
      if fd < |f.t.open| && f.t.fd[fd].Some? {
        var t := f.t.(fd := f.t.fd[fd := None]);
        SameBits(f.t, t);
        ClearOpenKeeps(t, fd);
      }
    case OpDup2(fd, file, cloexec, lim, lim2, mem) => Dup2Keeps(f, fd, file, cloexec, lim, lim2, mem);
    case OpSetCloexec(fd, flag) => SameBits(f.t, Apply(f, op).t);
    case OpExec => ExecKeeps(f, |f.t.open|);
  }

  function InitFiles(): (f: Files)
    ensures Inv(f) && |f.t.open| == NR_OPEN_DEFAULT
  {
    var t := Table(Falses(64), Falses(BitBits(64)), Falses(64), seq(64, _ => None));
    assert !t.open[0];
    Files(t, 0)
  }

  /**
   * `h` is a history: it starts from any sound table, such as init_files or what dup_fd made, and each
   * step applies an operation its caller may call.
   */
  ghost predicate History(h: seq<Files>, ops: seq<Op>) {
    && |h| == |ops| + 1 && Inv(h[0])
    && (forall i :: 0 <= i < |h| ==> Shape(h[i].t))
    && forall i :: 0 <= i < |ops| ==> Enabled(h[i], ops[i]) && h[i + 1] == Apply(h[i], ops[i])
  }

  lemma {:induction false} HistoryInv(h: seq<Files>, ops: seq<Op>, n: nat)
    requires History(h, ops) && n < |h|
    ensures Inv(h[n])
  {
    if n > 0 {
      HistoryInv(h, ops, n - 1);
      ApplyKeeps(h[n - 1], ops[n - 1]);
    }
  }

  // ---- what the operations mean, slot by slot ----

  /** One descriptor as its process sees it, whatever the size of the table. */
  datatype Slot = Slot(open: bool, cloexec: bool, file: Option<File>)

  function At(f: Files, i: nat): Slot
    requires Shape(f.t)
  {
    if i < |f.t.open| then Slot(f.t.open[i], f.t.cloexec[i], f.t.fd[i]) else Slot(false, false, None)
  }

  /** Descriptor `k` becomes `s`, and every other one stays what it was. */
  ghost predicate OneSlot(f: Files, g: Files, k: nat, s: Slot) {
    && Shape(f.t) && Shape(g.t) && At(g, k) == s
    && forall i: nat :: i != k ==> At(g, i) == At(f, i)
  }

  /** sysctl_nr_open in whole words: no table is larger. */
  function Ceiling(lim2: nat): nat { AlignUp(lim2, 64) }

  lemma {:induction false} RoundupDoubles(n: nat, p: nat)
    requires p > 0
    ensures var r := RoundupPow2(n, p); r == p || r <= 2 * (n - 1)
    decreases if p >= n then 0 else n - p
  {
    if p < n { RoundupDoubles(n, 2 * p); }
  }

  /** A table for descriptor `nr` holds it unless that is too large; it is no larger than allowed, and else at most doubles. */
  lemma TableSizeExact(nr: nat, lim2: nat)
    requires lim2 > 0
    ensures var m := TableSize(nr, lim2);
            && m <= Ceiling(lim2) && (m <= nr <==> nr >= Ceiling(lim2))
            && (m == Ceiling(lim2) || m == 128 || m <= 2 * nr)
  {
    var q := nr / 128;
    RoundupDoubles(q + 1, 1);
    assert 128 * q <= nr < 128 * q + 128;
    CeilingIs(lim2);
  }

  lemma CeilingIs(lim2: nat)
    requires lim2 > 0
    ensures Ceiling(lim2) == ((lim2 - 1) / 64) * 64 + 64
  {
    var m := ((lim2 - 1) / 64) * 64 + 64;
    assert m % 64 == 0;
    AlignUpLeast(lim2, 64, m);
    MultiplesApart(AlignUp(lim2, 64), m, 64);
  }

  /** Why expand_files refuses: the limit, memory, or a sysctl_nr_open that dropped meanwhile. */
  lemma ExpandExactly(f: Files, nr: nat, lim: nat, lim2: nat, mem: bool)
    requires Shape(f.t) && lim2 > 0
    ensures var r := Expand(f, nr, lim, lim2, mem);
            && (r == Err(ENOMEM) <==> |f.t.open| <= nr < lim && !mem)
            && (r == Err(EMFILE) <==> |f.t.open| <= nr && (nr >= lim || (mem && nr >= Ceiling(lim2))))
            && (r.Ok? || r == Err(ENOMEM) || r == Err(EMFILE))
            && (r.Ok? ==> nr < |r.value.t.open| && r.value.next == f.next && forall i: nat :: At(r.value, i) == At(f, i))
  {
    TableSizeExact(nr, lim2);
    hide WordOf, BitBits, WholeWords, TableSize, Ceiling;
  }

  lemma ReserveMeans(f: Files, start: nat, k: nat, cloexec: bool)
    requires Shape(f.t) && k < |f.t.open|
    ensures OneSlot(f, Reserve(f, start, k, cloexec), k, Slot(true, cloexec, None))
  {
    hide WordOf, BitBits, WholeWords;
  }

  /** `k` is the least descriptor from `start` on that is not open. */
  ghost predicate LeastFree(f: Files, start: nat, k: nat)
    requires Shape(f.t)
  {
    start <= k && !At(f, k).open && forall i: nat :: start <= i < k ==> At(f, i).open
  }

  lemma LeastFreeIs(f: Files, start: nat, k: nat)
    requires Shape(f.t) && LeastFree(f, start, k)
    ensures k == NextFree(f.t.open, start)
  {
    forall i | start <= i < k ensures i < |f.t.open| && f.t.open[i] { assert At(f, i).open; }
    if start < k { assert At(f, k - 1).open; }
    NextFreeUnique(f.t.open, start, k);
  }

  /** __alloc_fd exactly: which descriptor, what becomes of it, and when it fails with which error. */
  lemma AllocExactly(f: Files, start: nat, end: nat, cloexec: bool, lim: nat, lim2: nat, mem: bool, k: nat)
    requires Shape(f.t) && lim2 > 0 && LeastFree(f, start, k)
    ensures var (r, g) := Alloc(f, start, end, cloexec, lim, lim2, mem);
            && (r == Err(ENOMEM) <==> k < end && |f.t.open| <= k < lim && !mem)
            && (r == Err(EMFILE) <==> k >= end || (|f.t.open| <= k && (k >= lim || (mem && k >= Ceiling(lim2)))))
            && (r.Err? ==> g == f && (r.error == ENOMEM || r.error == EMFILE))
            && (r.Ok? ==> r == Ok(k) && OneSlot(f, g, k, Slot(true, cloexec, None)))
  {
    LeastFreeIs(f, start, k);
    ExpandExactly(f, k, lim, lim2, mem);
    hide WordOf, BitBits, WholeWords, Expand, Reserve, Ceiling;
    var e := Expand(f, k, lim, lim2, mem);
    if e.Ok? {
      ReserveMeans(e.value, start, k, cloexec);
      forall i: nat | i != k ensures At(Reserve(e.value, start, k, cloexec), i) == At(f, i) { }
    }
  }

  /** do_dup2 exactly. */
  lemma DupIntoExactly(f: Files, fd: nat, file: File, cloexec: bool)
    requires Shape(f.t) && fd < |f.t.open|
    ensures var (r, g) := DupInto(f, fd, file, cloexec);
            && (r.Err? <==> At(f, fd).open && At(f, fd).file.None?)
            && (if r.Err? then r == Err(EBUSY) && g == f
                else r == Ok(At(f, fd).file) && OneSlot(f, g, fd, Slot(true, cloexec, Some(file))))
  {
    hide WordOf, BitBits, WholeWords;
  }

  /** dup2 exactly: the file displaced, the slot taken over, and the condition of each error. */
  lemma Dup2Exactly(f: Files, fd: nat, file: File, cloexec: bool, lim: nat, lim2: nat, mem: bool)
    requires Shape(f.t) && lim2 > 0
    ensures var (r, g) := Dup2(f, fd, file, cloexec, lim, lim2, mem);
            && (r == Err(ENOMEM) <==> |f.t.open| <= fd < lim && !mem)
            && (r == Err(EMFILE) <==> |f.t.open| <= fd && (fd >= lim || (mem && fd >= Ceiling(lim2))))
            && (r == Err(EBUSY) <==> At(f, fd).open && At(f, fd).file.None?)
            && r != Err(EBADF)
            && (if r.Err? then forall i: nat :: At(g, i) == At(f, i)
                else r == Ok(At(f, fd).file) && OneSlot(f, g, fd, Slot(true, cloexec, Some(file))))
  {
    ExpandExactly(f, fd, lim, lim2, mem);
    hide WordOf, BitBits, WholeWords, Expand, DupInto, Ceiling;
    var e := Expand(f, fd, lim, lim2, mem);
    if e.Ok? { DupIntoExactly(e.value, fd, file, cloexec); }
  }

  lemma CloseExactly(f: Files, fd: nat)
    requires Shape(f.t)
    ensures var (r, g) := Close(f, fd);
            if At(f, fd).file.None? then r == Err(EBADF) && g == f
            else r == Ok(At(f, fd).file.value) && OneSlot(f, g, fd, At(f, fd).(open := false, file := None))
  {
    hide WordOf, BitBits, WholeWords;
  }

  /** replace_fd exactly. */
  lemma ReplaceExactly(f: Files, fd: nat, file: Option<File>, cloexec: bool, rlimit: nat, lim: nat, lim2: nat, mem: bool)
    requires Shape(f.t) && lim2 > 0
    ensures var (r, g) := Replace(f, fd, file, cloexec, rlimit, lim, lim2, mem);
            var here := At(f, fd);
            && (r == Err(EBADF) <==> if file.None? then here.file.None? else fd >= rlimit)
            && (r == Err(ENOMEM) <==> file.Some? && fd < rlimit && |f.t.open| <= fd < lim && !mem)
            && (r == Err(EMFILE) <==> file.Some? && fd < rlimit && |f.t.open| <= fd && (fd >= lim || (mem && fd >= Ceiling(lim2))))
            && (r == Err(EBUSY) <==> file.Some? && fd < rlimit && here.open && here.file.None?)
            && (if r.Err? then forall i: nat :: At(g, i) == At(f, i)
                else r == Ok(here.file) && OneSlot(f, g, fd, if file.None? then here.(open := false, file := None) else Slot(true, cloexec, file)))
  {
    hide WordOf, BitBits, WholeWords, Close, Dup2, Ceiling, OneSlot;
    if file.None? {
      CloseExactly(f, fd);
    } else {
      Dup2Exactly(f, fd, file.value, cloexec, lim, lim2, mem);
    }
  }

  /** What exec leaves of a descriptor: closed if it was flagged and installed, and unflagged in any case. */
  lemma ExecExactly(f: Files, i: nat)
    requires Shape(f.t)
    ensures Shape(Exec(f).t)
    ensures At(Exec(f), i) ==
              if At(f, i).cloexec && At(f, i).file.Some? then Slot(false, false, None) else At(f, i).(cloexec := false)
  {
    hide WordOf, BitBits, WholeWords;
  }

  /** Releasing a reserved descriptor and filling it change that descriptor only. */
  lemma PutInstallExactly(f: Files, fd: nat, file: File)
    requires Shape(f.t) && fd < |f.t.open|
    ensures OneSlot(f, Put(f, fd), fd, At(f, fd).(open := false))
    ensures OneSlot(f, Install(f, fd, file), fd, At(f, fd).(file := Some(file)))
  {
    hide WordOf, BitBits, WholeWords;
  }

  /**
   * After any history, allocation hands out the least descriptor from `start` that is not open, empty and
   * flagged as asked, and disturbs no other.  With memory and a steady sysctl_nr_open it succeeds as soon
   * as any descriptor in range is not open, inside the table or beyond it.  The hint is sound throughout.
   */
  lemma AllocAfterHistory(h: seq<Files>, ops: seq<Op>, n: nat, f: Files, g: Files, k: nat)
    requires History(h, ops) && n < |ops| && ops[n].OpAlloc? && f == h[n] && g == h[n + 1]
    ensures var op := ops[n];
            var r := Alloc(f, op.start, op.end, op.cloexec, op.lim, op.lim2, op.mem).0;
            && (r == Ok(k) ==> op.start <= k < op.end && LeastFree(f, op.start, k) && OneSlot(f, g, k, Slot(true, op.cloexec, None)))
            && (r.Err? ==> g == f)
            && ((op.start <= k < op.end && !At(f, k).open && (k < |f.t.open| || (op.mem && k < op.lim <= op.lim2))) ==> r.Ok?)
            && g.next <= |g.t.open| && forall i :: 0 <= i < g.next ==> g.t.open[i]
  {
    HistoryInv(h, ops, n);
    HistoryInv(h, ops, n + 1);
    var op := ops[n];
    var least := NextFree(f.t.open, op.start);
    assert LeastFree(f, op.start, least);
    AllocExactly(f, op.start, op.end, op.cloexec, op.lim, op.lim2, op.mem, least);
    if op.start <= k && !At(f, k).open { assert least <= k; }
    hide WordOf, BitBits, WholeWords, Alloc, OneSlot;
    CeilingIs(op.lim2);
  }
}
