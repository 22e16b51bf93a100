/**
 * fs/file.c as it runs: an fdtable made of fixed arrays, a files_struct that points at one, and the
 * operations on them, each proved to do what FdModel says.  Called with file_lock held throughout.
 */
module FdFiles {
  import opened Common
  import opened FdModel

  class Fdtable {
    const fd: array<Option<File>>
    const openFds: array<bool>
    const closeOnExec: array<bool>
    const fullFdsBits: array<bool>

    ghost predicate Sized() {
      && fd.Length == openFds.Length == closeOnExec.Length
      && WholeWords(fd.Length) && fd.Length > 0
      && fullFdsBits.Length == BitBits(fd.Length)
      && openFds != closeOnExec && openFds != fullFdsBits && closeOnExec != fullFdsBits
    }

    ghost function Arrays(): set<object> { {fd as object, openFds, closeOnExec, fullFdsBits} }

    ghost function View(): (t: Table)
      requires Sized()
      reads Arrays()
      ensures Shape(t)
    {
      Table(openFds[..], fullFdsBits[..], closeOnExec[..], fd[..])
    }

    /** The memory comes uninitialised from kvmalloc. */
    constructor (nr: nat)
      requires WholeWords(nr) && nr > 0
      ensures Sized() && fd.Length == nr
      ensures fresh(Arrays())
    {
      fd := new Option<File>[nr];
      openFds := new bool[nr];
      closeOnExec := new bool[nr];
      fullFdsBits := new bool[BitBits(nr)];
    }

    method SetOpenFd(n: nat)
      requires Sized() && n < fd.Length
      modifies openFds, fullFdsBits
      ensures View() == SetOpen(old(View()), n)
    {
      WordFits(fd.Length, n);
      hide WordOf, BitBits, WholeWords;
      openFds[n] := true;
      var w := WordOf(n);
      var all := true;
      for i := 64 * w to 64 * w + 64
        invariant all <==> forall j :: 64 * w <= j < i ==> openFds[j]
      {
        if !openFds[i] { all := false; }
      }
      assert openFds[..] == old(openFds[..])[n := true];
      if all {
        fullFdsBits[w] := true;
      }
    }

    method ClearOpenFd(n: nat)
      requires Sized() && n < fd.Length
      modifies openFds, fullFdsBits
      ensures View() == ClearOpen(old(View()), n)
    {
      WordFits(fd.Length, n);
      hide WordOf, BitBits, WholeWords;
      openFds[n] := false;
      fullFdsBits[WordOf(n)] := false;
    }

    /** The two-level search agrees with the plain scan of the open bitmap. */
    method FindNextFd(start: nat) returns (k: nat)
      requires Sized() && TableInv(View()) && start < fd.Length
      ensures k == NextFree(openFds[..], start)
    {
      var maxfd := fd.Length;
      var maxbit := maxfd / 64;
      BitBitsMonotone(maxfd, maxfd);
      assert 64 * maxbit == maxfd;
      WordFits(maxfd, start);
      hide WordOf, BitBits, WholeWords;
      var bitbit := FindNextZeroBit(fullFdsBits, maxbit, WordOf(start));
      FullPrefixIsOpen(View(), start, bitbit);
      bitbit := bitbit * 64;
      if bitbit > maxfd { assert false; } // never taken: max_fds is a multiple of BITS_PER_LONG
      var from := start;
      if bitbit > from { from := bitbit; }
      k := FindNextZeroBit(openFds, maxfd, from);
      NextFreeUnique(openFds[..], start, k);
    }

    /** copy_fd_bitmaps: `count` bits of the two plain maps, whole longs of the second level. */
    method CopyFdBitmaps(src: Fdtable, count: nat)
      requires Sized() && src.Sized() && Arrays() !! src.Arrays()
      requires WholeWords(count) && count <= fd.Length && count <= src.fd.Length
      modifies openFds, closeOnExec, fullFdsBits
      ensures openFds[..] == old(src.openFds[..count]) + Falses(fd.Length - count)
      ensures closeOnExec[..] == old(src.closeOnExec[..count]) + Falses(fd.Length - count)
      ensures BitBits(count) <= fullFdsBits.Length && BitBits(count) <= src.fullFdsBits.Length
      ensures fullFdsBits[..] == old(src.fullFdsBits[..BitBits(count)]) + Falses(fullFdsBits.Length - BitBits(count))
    {
      BitBitsMonotone(count, fd.Length);
      BitBitsMonotone(count, src.fd.Length);
      CopyPrefix(openFds, src.openFds, count);
      CopyPrefix(closeOnExec, src.closeOnExec, count);
      CopyPrefix(fullFdsBits, src.fullFdsBits, BitBits(count));
    }

    /** Is any bit of word `w` of open_fds set? */
    method WordNonzero(w: nat) returns (b: bool)
      requires Sized() && 64 * w + 64 <= fd.Length
      ensures b <==> exists i :: 64 * w <= i < 64 * w + 64 && openFds[i]
    {
      b := false;
      for j := 64 * w to 64 * w + 64
        invariant b <==> exists k :: 64 * w <= k < j && openFds[k]
      {
        if openFds[j] { b := true; }
      }
    }

    /** count_open_files: one past the last word with an open bit, in bits. */
    method CountOpenFiles() returns (n: nat)
      requires Sized()
      ensures 0 < n <= fd.Length && WholeWords(n)
      ensures forall i :: n <= i < fd.Length ==> !openFds[i]
      ensures n > 64 ==> exists i :: n - 64 <= i < n && openFds[i]
    {
      var i := fd.Length / 64;
      assert 64 * i == fd.Length;
      hide Shape, BitBits, WholeWords;
      while i > 0
        invariant 0 <= i && 64 * i <= fd.Length
        invariant forall j :: 64 * i <= j < fd.Length ==> !openFds[j]
      {
        i := i - 1;
        var nonzero := WordNonzero(i);
        if nonzero {
          AreWholeWords(i + 1);
          return 64 * i + 64;
        }
      }
      AreWholeWords(1);
      n := 64;
    }
  }

  /** memcpy of a prefix and memset of the rest. */
  method CopyPrefix(dst: array<bool>, src: array<bool>, n: nat)
    requires n <= dst.Length && n <= src.Length && dst != src
    modifies dst
    ensures dst[..] == old(src[..n]) + Falses(dst.Length - n)
  {
    for i := 0 to dst.Length
      invariant forall j :: 0 <= j < i ==> dst[j] == (j < n && src[j])
      invariant src[..] == old(src[..])
    {
      dst[i] := i < n && src[i];
    }
    assert src[..n] == old(src[..])[..n] == old(src[..n]);
  }

  lemma FullPrefixIsOpen(t: Table, start: nat, w: nat)
    requires TableInv(t) && WordOf(start) <= w && 64 * w <= |t.open| && w <= |t.full|
    requires forall i :: WordOf(start) <= i < w ==> t.full[i]
    ensures forall i :: start <= i < 64 * w ==> t.open[i]
  {
    hide WordOf, BitBits, WholeWords;
    forall i | start <= i < 64 * w ensures t.open[i] {
      assert t.full[WordOf(i)];
      assert WordFull(t.open, WordOf(i));
    }
  }

  class FilesStruct {
    var fdt: Fdtable
    var nextFd: nat

    ghost function Repr(): set<object>
      reads this
    {
      {this} + fdt.Arrays()
    }

    ghost predicate Valid()
      reads this, fdt.Arrays()
    {
      fdt.Sized() && Inv(View())
    }

    ghost function View(): (f: Files)
      requires fdt.Sized()
      reads this, fdt.Arrays()
    {
      Files(fdt.View(), nextFd)
    }

    constructor FromTable(t: Fdtable)
      ensures fdt == t && nextFd == 0
    {
      fdt := t;
      nextFd := 0;
    }

    /** expand_files; the answer is an error, "nothing done" (0) or "expanded" (1). */
    method ExpandFiles(nr: nat, lim: nat, lim2: nat, mem: bool) returns (r: Result<bool, Errno>)
      requires Valid() && lim2 > 0
      modifies this
      ensures Valid() && (fdt == old(fdt) || fresh(fdt.Arrays()))
      ensures match Expand(old(View()), nr, lim, lim2, mem)
              case Err(e) => r == Err(e) && View() == old(View())
              case Ok(g) => r == Ok(nr >= old(fdt.fd.Length)) && View() == g
    {
      if nr < fdt.fd.Length { return Ok(false); }
      if nr >= lim { return Err(EMFILE); }
      if !mem { return Err(ENOMEM); }
      var size := TableSize(nr, lim2);
      if size <= nr { return Err(EMFILE); }
      var new_fdt := new Fdtable(size);
      CopyFdtable(new_fdt, fdt);
      fdt := new_fdt;
      ExpandKeeps(old(View()), nr, lim, lim2, mem);
      return Ok(true);
    }

    static method CopyFdtable(nfdt: Fdtable, ofdt: Fdtable)
      requires nfdt.Sized() && ofdt.Sized() && nfdt.Arrays() !! ofdt.Arrays()
      requires ofdt.fd.Length <= nfdt.fd.Length
      modifies nfdt.Arrays()
      ensures nfdt.View() == Grow(ofdt.View(), nfdt.fd.Length)
      ensures ofdt.View() == old(ofdt.View())
    {
      for i := 0 to nfdt.fd.Length
        invariant forall j :: 0 <= j < i ==> nfdt.fd[j] == if j < ofdt.fd.Length then ofdt.fd[j] else None
        invariant ofdt.View() == old(ofdt.View())
      {
        nfdt.fd[i] := if i < ofdt.fd.Length then ofdt.fd[i] else None;
      }
      nfdt.CopyFdBitmaps(ofdt, ofdt.fd.Length);
      assert ofdt.openFds[..ofdt.fd.Length] == ofdt.openFds[..];
      assert ofdt.closeOnExec[..ofdt.fd.Length] == ofdt.closeOnExec[..];
      assert ofdt.fullFdsBits[..BitBits(ofdt.fd.Length)] == ofdt.fullFdsBits[..];
      assert nfdt.fd[..] == ofdt.fd[..] + seq(nfdt.fd.Length - ofdt.fd.Length, _ => None);
    }

    /** __alloc_fd: hint, two-level search and growing, equal to the reference allocation. */
    method AllocFd(start: nat, end: nat, cloexec: bool, lim: nat, lim2: nat, mem: bool)
      returns (r: Result<nat, Errno>)
      requires Valid() && lim2 > 0
      modifies Repr()
      ensures Valid() && (fdt == old(fdt) || fresh(fdt.Arrays()))
      ensures (r, View()) == Alloc(old(View()), start, end, cloexec, lim, lim2, mem)
    {
      var fd := SearchFrom(start);
      if fd >= end { return Err(EMFILE); }
      ExpandKeeps(View(), fd, lim, lim2, mem);
      var e := ExpandFiles(fd, lim, lim2, mem);
      if e.Err? { return Err(e.error); }
      if e.value {
        fd := SearchFrom(start);
        e := ExpandFiles(fd, lim, lim2, mem);
      }
      ReserveFd(start, fd, cloexec);
      return Ok(fd);
    }

    method ReserveFd(start: nat, fd: nat, cloexec: bool)
      requires Valid() && fd < fdt.fd.Length && fd == NextFree(fdt.openFds[..], start)
      modifies Repr()
      ensures Valid() && fdt == old(fdt)
      ensures View() == Reserve(old(View()), start, fd, cloexec)
    {
      ReserveKeeps(View(), start, fd, cloexec);
      if start <= nextFd { nextFd := fd + 1; }
      fdt.SetOpenFd(fd);
      fdt.closeOnExec[fd] := cloexec;
      fdt.fd[fd] := None;
    }

    method SearchFrom(start: nat) returns (fd: nat)
      requires Valid()
      ensures fd == NextFree(fdt.openFds[..], start)
    {
      fd := start;
      if fd < nextFd { fd := nextFd; }
      ghost var from := fd;
      if fd < fdt.fd.Length { fd := fdt.FindNextFd(fd); }
      NextFreeUnique(fdt.openFds[..], start, fd);
    }

    method PutUnusedFd(n: nat)
      requires Valid() && n < fdt.fd.Length && fdt.fd[n].None?
      modifies Repr()
      ensures Valid() && fdt == old(fdt) && View() == Put(old(View()), n)
    {
      ClearOpenKeeps(fdt.View(), n);
      fdt.ClearOpenFd(n);
      if n < nextFd { nextFd := n; }
    }

    /** __fd_install without a concurrent resize; the BUG_ON is the precondition. */
    method FdInstall(n: nat, file: File)
      requires Valid() && n < fdt.fd.Length && fdt.openFds[n] && fdt.fd[n].None?
      modifies Repr()
      ensures Valid() && fdt == old(fdt) && View() == Install(old(View()), n, file)
    {
      fdt.fd[n] := Some(file);
      SameBits(old(View()).t, fdt.View());
    }

    method CloseFd(n: nat) returns (r: Result<File, Errno>)
      requires Valid()
      modifies Repr()
      ensures Valid() && fdt == old(fdt)
      ensures (r, View()) == Close(old(View()), n)
    {
      if n >= fdt.fd.Length { return Err(EBADF); }
      var file := fdt.fd[n];
      if file.None? { return Err(EBADF); }
      fdt.fd[n] := None;
      SameBits(old(View()).t, fdt.View());
      PutUnusedFd(n);
      return Ok(file.value);
    }

    /** replace_fd and do_dup2: returns the file that was displaced, if any. */
    method ReplaceFd(n: nat, file: Option<File>, cloexec: bool, rlimit: nat, lim: nat, lim2: nat, mem: bool)
      returns (r: Result<Option<File>, Errno>)
      requires Valid() && lim2 > 0
      modifies Repr()
      ensures Valid() && (fdt == old(fdt) || fresh(fdt.Arrays()))
      ensures (r, View()) == Replace(old(View()), n, file, cloexec, rlimit, lim, lim2, mem)
    {
      if file.None? {
        var c := CloseFd(n);
        return if c.Ok? then Ok(Some(c.value)) else Err(c.error);
      }
      if n >= rlimit { return Err(EBADF); }
      var e := ExpandFiles(n, lim, lim2, mem);
      if e.Err? { return Err(e.error); }
      r := DoDup2(n, file.value, cloexec);
    }

    method DoDup2(n: nat, file: File, cloexec: bool) returns (r: Result<Option<File>, Errno>)
      requires Valid() && n < fdt.fd.Length
      modifies Repr()
      ensures Valid() && fdt == old(fdt)
      ensures (r, View()) == DupInto(old(View()), n, file, cloexec)
    {
      DupIntoKeeps(View(), n, file, cloexec);
      var tofree := fdt.fd[n];
      if tofree.None? && fdt.openFds[n] { return Err(EBUSY); }
      fdt.fd[n] := Some(file);
      fdt.SetOpenFd(n);
      fdt.closeOnExec[n] := cloexec;
      return Ok(tofree);
    }

    /** do_close_on_exec: word by word, clearing the word and closing what it named. */
    method DoCloseOnExec()
      requires Valid()
      modifies Repr()
      ensures Valid() && fdt == old(fdt) && View() == Exec(old(View()))
    {
      ghost var f := View();
      ExecBelowZero(f);
      ExecKeeps(f, fdt.fd.Length);
      CloseAllWords(f);
    }

    ghost predicate ClosedBelow(f: Files, n: nat)
      reads this, fdt.Arrays()
    {
      fdt.Sized() && Inv(f) && n <= |f.t.open| == fdt.fd.Length && View() == ExecBelow(f, n)
    }

    method CloseAllWords(ghost f: Files)
      requires ClosedBelow(f, 0)
      modifies Repr()
      ensures fdt == old(fdt) && ClosedBelow(f, fdt.fd.Length)
    {
      var words := fdt.fd.Length / 64;
      assert 64 * words == fdt.fd.Length;
      hide ExecBelow, WholeWords, BitBits;
      for i := 0 to words
        invariant fdt == old(fdt) && ClosedBelow(f, 64 * i)
      {
        CloseWord(f, 64 * i);
      }
    }

    method CloseWord(ghost f: Files, n: nat)
      requires ClosedBelow(f, n) && n + 64 <= fdt.fd.Length
      modifies Repr()
      ensures fdt == old(fdt) && ClosedBelow(f, n + 64)
    {
      var word := TakeWord(f, n);
      for b := 0 to 64
        invariant fdt == old(fdt)
        invariant View() == ExecPending(f, n + b, n + 64)
      {
        CloseOne(f, n + b, n + 64, word[b]);
      }
    }

    /** Read one word of close_on_exec and zero it. */
    method TakeWord(ghost f: Files, n: nat) returns (word: seq<bool>)
      requires fdt.Sized() && Inv(f) && n + 64 <= |f.t.open| == fdt.fd.Length
      requires View() == ExecBelow(f, n)
      modifies fdt.closeOnExec
      ensures View() == ExecPending(f, n, n + 64)
      ensures word == f.t.cloexec[n..n + 64]
    {
      word := fdt.closeOnExec[n..n + 64];
      for j := n to n + 64
        invariant forall k :: 0 <= k < fdt.fd.Length ==> fdt.closeOnExec[k] == (old(fdt.closeOnExec[k]) && !(n <= k < j))
        invariant fdt.openFds[..] == old(fdt.openFds[..]) && fdt.fullFdsBits[..] == old(fdt.fullFdsBits[..])
      {
        fdt.closeOnExec[j] := false;
      }
      assert fdt.closeOnExec[..] == ExecBelow(f, n + 64).t.cloexec;
    }

    method CloseOne(ghost f: Files, n: nat, ghost m: nat, flagged: bool)
      requires fdt.Sized() && Inv(f) && n < m <= |f.t.open| == fdt.fd.Length
      requires flagged == f.t.cloexec[n]
      requires View() == ExecPending(f, n, m)
      modifies Repr()
      ensures fdt == old(fdt) && View() == ExecPending(f, n + 1, m)
    {
      ExecBelowStep(f, n);
      if flagged && fdt.fd[n].Some? {
        fdt.fd[n] := None;
        fdt.ClearOpenFd(n);
        if n < nextFd { nextFd := n; }
      }
    }

    /**
     * dup_fd.  `gets` collects the get_file calls; `copied` is the descriptor count that was copied.
     * `lim2` is sysctl_nr_open as alloc_fdtable reads it and `mem` says whether memory is available.
     */
    method DupFd(lim2: nat, mem: bool)
      returns (r: Result<FilesStruct, Errno>, gets: multiset<File>, copied: nat)
      requires Valid() && lim2 > 0
      ensures WholeWords(copied) && 0 < copied <= fdt.fd.Length
      ensures forall i :: copied <= i < fdt.fd.Length ==> !fdt.openFds[i]
      ensures r.Err? <==> copied > NR_OPEN_DEFAULT && (!mem || TableSize(copied - 1, lim2) < copied)
      ensures r.Err? ==> r.error == (if !mem then ENOMEM else EMFILE) && gets == multiset{}
      ensures r.Ok? ==> fresh(r.value) && fresh(r.value.fdt.Arrays()) && r.value.Valid() && r.value.nextFd == 0
      ensures r.Ok? ==> IsFork(fdt.View(), r.value.fdt.View(), copied)
      ensures r.Ok? ==> gets == InstalledBelow(fdt.fd[..], fdt.fd.Length)
    {
      gets := multiset{};
      copied := fdt.CountOpenFiles();
      var new_fdt: Fdtable;
      if copied > NR_OPEN_DEFAULT {
        if !mem { return Err(ENOMEM), gets, copied; }
        var size := TableSize(copied - 1, lim2);
        if size < copied { return Err(EMFILE), gets, copied; }
        new_fdt := new Fdtable(size);
      } else {
        new_fdt := new Fdtable(NR_OPEN_DEFAULT);
      }
      gets := ForkSlots(fdt, new_fdt, copied);
      InstalledStops(fdt.View(), copied, fdt.fd.Length);
      var newf := new FilesStruct.FromTable(new_fdt);
      return Ok(newf), gets, copied;
    }

    static method ForkSlots(ofdt: Fdtable, nfdt: Fdtable, count: nat) returns (gets: multiset<File>)
      requires nfdt.Sized() && ofdt.Sized() && nfdt.Arrays() !! ofdt.Arrays() && TableInv(ofdt.View())
      requires WholeWords(count) && count <= ofdt.fd.Length && count <= nfdt.fd.Length
      requires forall i :: count <= i < ofdt.fd.Length ==> !ofdt.openFds[i]
      modifies nfdt.Arrays()
      ensures ofdt.View() == old(ofdt.View())
      ensures IsFork(ofdt.View(), nfdt.View(), count)
      ensures gets == InstalledBelow(ofdt.fd[..], count)
    {
      ghost var p := ofdt.View();
      ForkBitmaps(ofdt, nfdt, count);
      gets := multiset{};
      for i := 0 to count
        invariant ofdt.View() == p
        invariant Forking(p, nfdt.View(), count, i)
        invariant gets == InstalledBelow(p.fd, i)
      {
        var f := ofdt.fd[i];
        if f.Some? {
          gets := gets + multiset{f.value};
        }
        ForkSlot(p, nfdt, count, i, f);
      }
      FinishFork(ofdt, nfdt, count);
    }

    static method FinishFork(ofdt: Fdtable, nfdt: Fdtable, count: nat)
      requires nfdt.Sized() && ofdt.Sized() && nfdt.Arrays() !! ofdt.Arrays() && TableInv(ofdt.View())
      requires Forking(ofdt.View(), nfdt.View(), count, count)
      requires forall i :: count <= i < ofdt.fd.Length ==> !ofdt.openFds[i]
      modifies nfdt.fd
      ensures ofdt.View() == old(ofdt.View())
      ensures IsFork(ofdt.View(), nfdt.View(), count)
    {
      ClearSlots(nfdt, count);
      ForkDone(ofdt.View(), nfdt.View(), count);
    }

    static method ForkBitmaps(ofdt: Fdtable, nfdt: Fdtable, count: nat)
      requires nfdt.Sized() && ofdt.Sized() && nfdt.Arrays() !! ofdt.Arrays() && TableInv(ofdt.View())
      requires WholeWords(count) && count <= ofdt.fd.Length && count <= nfdt.fd.Length
      requires forall i :: count <= i < ofdt.fd.Length ==> !ofdt.openFds[i]
      modifies nfdt.Arrays()
      ensures ofdt.View() == old(ofdt.View())
      ensures Forking(ofdt.View(), nfdt.View(), count, 0)
    {
      nfdt.CopyFdBitmaps(ofdt, count);
      CopiedFullExact(ofdt.View(), nfdt.View(), count);
    }

    static method ForkSlot(ghost p: Table, nfdt: Fdtable, ghost count: nat, i: nat, f: Option<File>)
      requires nfdt.Sized() && TableInv(p) && Forking(p, nfdt.View(), count, i) && i < count && f == p.fd[i]
      modifies nfdt.Arrays()
      ensures Forking(p, nfdt.View(), count, i + 1)
    {
      ghost var before := nfdt.View();
      if f.None? {
        nfdt.ClearOpenFd(i);
      }
      nfdt.fd[i] := f;
      ForkingStep(p, before, nfdt.View(), count, i);
    }

    /** The final memset of the slots past the copied ones. */
    static method ClearSlots(nfdt: Fdtable, count: nat)
      requires nfdt.Sized() && count <= nfdt.fd.Length
      modifies nfdt.fd
      ensures nfdt.View() == old(nfdt.View()).(fd := old(nfdt.fd[..count]) + seq(nfdt.fd.Length - count, _ => None))
    {
      for i := count to nfdt.fd.Length
        invariant forall j :: 0 <= j < count ==> nfdt.fd[j] == old(nfdt.fd[j])
        invariant forall j :: count <= j < i ==> nfdt.fd[j].None?
      {
        nfdt.fd[i] := None;
      }
    }
  }

  /** The child table `c` after `i` slots of the copy loop. */
  ghost predicate Forking(p: Table, c: Table, count: nat, i: nat) {
    && Shape(p) && Shape(c) && i <= count <= |p.open| && count <= |c.open|
    && FullExact(c)
    && (forall j :: 0 <= j < |c.open| ==> (c.open[j] <==> j < count && if j < i then p.fd[j].Some? else p.open[j]))
    && (forall j :: 0 <= j < |c.open| ==> (c.cloexec[j] <==> j < count && p.cloexec[j]))
    && (forall j :: 0 <= j < i ==> c.fd[j] == p.fd[j])
  }

  lemma ForkingStep(p: Table, c: Table, d: Table, count: nat, i: nat)
    requires TableInv(p) && Forking(p, c, count, i) && i < count
    requires d == (if p.fd[i].None? then ClearOpen(c, i) else c).(fd := c.fd[i := p.fd[i]])
    ensures Forking(p, d, count, i + 1)
  {
    ClearOpenFull(c, i);
  }

  lemma ForkDone(p: Table, c: Table, count: nat)
    requires TableInv(p) && Forking(p, c, count, count)
    requires forall j :: count <= j < |c.fd| ==> c.fd[j].None?
    requires forall i :: count <= i < |p.open| ==> !p.open[i]
    ensures IsFork(p, c, count)
  {
  }

  lemma InstalledStops(t: Table, count: nat, n: nat)
    requires TableInv(t) && count <= n <= |t.fd|
    requires forall i :: count <= i < |t.open| ==> !t.open[i]
    ensures InstalledBelow(t.fd, n) == InstalledBelow(t.fd, count)
  {
  }
}
