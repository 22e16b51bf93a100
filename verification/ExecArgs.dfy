/**
 * How execve hands strings over (fs/exec.c and create_elf_tables of fs/binfmt_elf.c): they are copied
 * backwards into the pages of the new stack, moved with it, and found again by a forward walk.
 */
module ExecArgs {
  import opened Common

  /** A string without its NUL; see Clean. */
  type Str = seq<Byte>

  /** The pages of the new stack by page number. */
  type Pages = map<nat, seq<Byte>>

  predicate Sized(m: Pages) { forall n :: n in m ==> |m[n]| == PAGE_SIZE }

  const MAX_ARG_STRLEN: nat := 32 * PAGE_SIZE
  const ARG_MAX: nat := 131072
  const STK_LIM: nat := 8 * 1024 * 1024
  const PTR_SIZE: nat := 8

  datatype Errno = E2BIG | EFAULT | EINVAL

  // ---- memory, byte by byte ----

  predicate Mapped(m: Pages, a: nat) { a / PAGE_SIZE in m }

  function At(m: Pages, a: nat): Byte
    requires Sized(m) && Mapped(m, a)
  {
    m[a / PAGE_SIZE][a % PAGE_SIZE]
  }

  /** The bytes from address `a` on are `bs`. */
  ghost predicate Holds(m: Pages, a: nat, bs: seq<Byte>)
    requires Sized(m)
  {
    forall k :: a <= k < a + |bs| ==> Mapped(m, k) && At(m, k) == bs[k - a]
  }

  /** Everything mapped at or above `a` is as it was. */
  ghost predicate SameFrom(m: Pages, r: Pages, a: nat)
    requires Sized(m) && Sized(r)
  {
    forall k :: a <= k && Mapped(m, k) ==> Mapped(r, k) && At(r, k) == At(m, k)
  }

  /** get_arg_page: the page, new and zeroed if need be. */
  function GetPage(m: Pages, n: nat): (page: seq<Byte>)
    requires Sized(m)
    ensures |page| == PAGE_SIZE
  {
    if n in m then m[n] else seq(PAGE_SIZE, _ => 0)
  }

  /** Store bytes into one page. */
  function Store(m: Pages, n: nat, offset: nat, bs: seq<Byte>): (r: Pages)
    requires Sized(m) && offset + |bs| <= PAGE_SIZE
    ensures Sized(r)
  {
    var page := GetPage(m, n);
    m[n := page[..offset] + bs + page[offset + |bs|..]]
  }

  /** Storing into a page is storing at addresses. */
  lemma StoreAt(m: Pages, n: nat, offset: nat, bs: seq<Byte>, k: nat)
    requires Sized(m) && offset + |bs| <= PAGE_SIZE
    ensures var a := n * PAGE_SIZE + offset;
            var r := Store(m, n, offset, bs);
            && (a <= k < a + |bs| ==> Mapped(r, k) && At(r, k) == bs[k - a])
            && (!(a <= k < a + |bs|) && Mapped(m, k) ==> Mapped(r, k) && At(r, k) == At(m, k))
            && (Mapped(r, k) ==> Mapped(m, k) || k / PAGE_SIZE == n)
  {
  }

  // ---- strings ----

  /** The strings one after the other, each with its NUL. */
  function Flat(args: seq<Str>): seq<Byte> {
    if args == [] then [] else args[0] + [0] + Flat(args[1..])
  }

  lemma {:induction false} FlatSplit(args: seq<Str>, i: nat)
    requires i <= |args|
    ensures Flat(args) == Flat(args[..i]) + Flat(args[i..])
    decreases i
  {
    if i > 0 {
      FlatSplit(args[1..], i - 1);
      assert args[..i][1..] == args[1..][..i - 1];
      assert args[i..] == args[1..][i - 1..];
      assert args[..i][0] == args[0];
    } else {
      assert args[..0] == [] && args[0..] == args;
    }
  }

  lemma FlatLast(args: seq<Str>, i: nat)
    requires i < |args|
    ensures Flat(args[i..]) == args[i] + [0] + Flat(args[i + 1..])
  {
  }

  class Binprm {
    var p: int
    var argmin: nat
    var argc: nat
    var envc: nat
    var pages: Pages
    const unavailable: set<nat>  // pages that get_arg_page cannot give

    constructor (p: nat, unavailable: set<nat>)
      ensures this.p == p && pages == map[] && this.unavailable == unavailable && argc == 0 && envc == 0 && argmin == 0
    {
      this.p, pages, this.unavailable, argc, envc, argmin := p, map[], unavailable, 0, 0, 0;
    }

    /** Copy one string with its NUL to the addresses below `p`, from its end, a page at a time. */
    method CopyBackwards(bs: seq<Byte>, top: nat) returns (ok: bool)
      requires |bs| <= top && Sized(pages)
      modifies this`pages
      ensures Sized(pages)
      ensures ok <==> forall k :: top - |bs| <= k < top ==> k / PAGE_SIZE !in unavailable
      ensures ok ==> Holds(pages, top - |bs|, bs) && SameFrom(old(pages), pages, top)
    {
      var len: nat, pos: nat := |bs|, top;
      assert bs[|bs|..] == [];
      while len > 0
        invariant Sized(pages) && len <= |bs| && pos == top - |bs| + len
        invariant forall k :: pos <= k < top ==> k / PAGE_SIZE !in unavailable
        invariant Holds(pages, pos, bs[len..]) && SameFrom(old(pages), pages, top)
      {
        var offset := pos % PAGE_SIZE;
        if offset == 0 { offset := PAGE_SIZE; }
        var chunk := offset;
        if chunk > len { chunk := len; }
        offset, pos, len := offset - chunk, pos - chunk, len - chunk;
        var n := pos / PAGE_SIZE;
        ChunkInPage(pos, offset, chunk);
        if n in unavailable {
          assert pos / PAGE_SIZE in unavailable;
          return false;
        }
        ghost var m := pages;
        pages := Store(pages, n, offset, bs[len..len + chunk]);
        ChunkStored(m, n, offset, bs, len, chunk, pos, top);
      }
      assert bs[0..] == bs;
      return true;
    }

    /** copy_strings: the last string first, each below the one before. */
    method CopyStrings(args: seq<Str>) returns (r: Option<Errno>)
      requires Sized(pages) && p >= 0
      modifies this`p, this`pages
      ensures Sized(pages) && (r.None? || r == Some(E2BIG)) && (r.None? ==> p >= 0)
      ensures r.None? <==> Fits(args, old(p), argmin, unavailable)
      ensures r.None? ==>
        && p == old(p) - |Flat(args)| && Holds(pages, p, Flat(args)) && SameFrom(old(pages), pages, old(p))
        && (args != [] ==> p >= argmin)
    {
      var argc: nat := |args|;
      FlatEnd(args);
      while argc > 0
        invariant argc <= |args| && Sized(pages)
        invariant Fits(args[argc..], old(p), argmin, unavailable) && p == old(p) - |Flat(args[argc..])|
        invariant Holds(pages, p, Flat(args[argc..])) && SameFrom(old(pages), pages, old(p))
      {
        argc := argc - 1;
        FitsStep(args, argc, old(p), argmin, unavailable);
        var len := |args[argc]| + 1;
        if len > MAX_ARG_STRLEN { return Some(E2BIG); }
        var pos := p;
        p := p - len;
        if p < argmin { return Some(E2BIG); }
        ghost var m := pages;
        var ok := CopyBackwards(args[argc] + [0], pos);
        if !ok { return Some(E2BIG); }
        HoldsJoin(m, pages, p, args[argc] + [0], Flat(args[argc + 1..]));
      }
      assert args[0..] == args;
      return None;
    }

    /** prepare_arg_pages: how far down the strings may reach, with room for the pointers kept. */
    method PrepareArgPages(argv: seq<Str>, envp: seq<Str>, rlimit: nat) returns (r: Option<Errno>)
      requires p >= STK_LIM
      modifies this`argc, this`envc, this`argmin
      ensures r.None? <==> PTR_SIZE * (|argv| + |envp|) < ArgLimit(rlimit)
      ensures r.None? ==> argc == |argv| && envc == |envp| && argmin == p - (ArgLimit(rlimit) - PTR_SIZE * (|argv| + |envp|))
    {
      argc, envc := |argv|, |envp|;
      var limit := STK_LIM / 4 * 3;
      limit := Min(limit, rlimit / 4);
      limit := Max(limit, ARG_MAX);
      var pointers := (argc + envc) * PTR_SIZE;
      if limit <= pointers { return Some(E2BIG); }
      limit := limit - pointers;
      argmin := p - limit;
      return None;
    }

    /**
     * The copies of __do_execve_file: filename, environment, arguments.  Together they are one flat copy
     * of arguments, environment and filename, and they fail exactly when that copy would not fit.
     */
    method CopyAll(filename: Str, argv: seq<Str>, envp: seq<Str>, rlimit: nat) returns (r: Option<Errno>, exec: nat)
      requires p >= STK_LIM && pages == map[]
      modifies this
      ensures Sized(pages) && (r.None? ==> p >= 0)
      ensures var all := argv + envp + [filename];
        && (r.None? <==>
              && PTR_SIZE * (|argv| + |envp|) < ArgLimit(rlimit)
              && Fits(all, old(p), old(p) - ArgLimit(rlimit) + PTR_SIZE * (|argv| + |envp|), unavailable))
        && (r.None? ==>
              && p == old(p) - |Flat(all)| && Holds(pages, p, Flat(all)) && exec == old(p) - |filename| - 1
              && argc == |argv| && envc == |envp|
              && |Flat(all)| + PTR_SIZE * (argc + envc) <= ArgLimit(rlimit))
    {
      hide Holds, SameFrom, Fits, Flat;
      exec := 0;
      r := PrepareArgPages(argv, envp, rlimit);
      if r.Some? { return; }
      r, exec := CopyThree(filename, argv, envp);
    }

    /** The three copies, each below the one before. */
    method CopyThree(filename: Str, argv: seq<Str>, envp: seq<Str>) returns (r: Option<Errno>, exec: nat)
      requires Sized(pages) && p >= 0
      modifies this`p, this`pages
      ensures Sized(pages) && (r.None? || r == Some(E2BIG)) && (r.None? ==> p >= 0)
      ensures var all := argv + envp + [filename];
        && (r.None? <==> Fits(all, old(p), argmin, unavailable))
        && (r.None? ==>
              && p == old(p) - |Flat(all)| && Holds(pages, p, Flat(all)) && exec == old(p) - |filename| - 1 && p >= argmin)
    {
      hide Holds, SameFrom;
      exec := 0;
      ghost var top, all := p, argv + envp + [filename];
      FitsConcat(argv + envp, [filename], top, argmin, unavailable);
      r := CopyStrings([filename]);
      if r.Some? { return; }
      FitsConcat(argv, envp, p, argmin, unavailable);
      exec := p;
      ghost var m1, p1 := pages, p;
      r := CopyStrings(envp);
      if r.Some? { return; }
      ghost var m2, p2 := pages, p;
      HoldsJoin(m1, m2, p2, Flat(envp), Flat([filename]));
      r := CopyStrings(argv);
      if r.Some? { return; }
      HoldsJoin(m2, pages, p, Flat(argv), Flat(envp) + Flat([filename]));
      assert Flat(all) == Flat(argv) + (Flat(envp) + Flat([filename]));
    }

    /** setup_arg_pages: move the whole stack down by whole pages. */
    method ShiftStack(shift: nat)
      requires Sized(pages) && p >= shift * PAGE_SIZE
      modifies this`p, this`pages
      ensures Sized(pages) && MovedDown(old(pages), pages, shift) && p == old(p) - shift * PAGE_SIZE
    {
      var moved: Pages, todo := map[], pages.Keys;
      while todo != {}
        invariant todo <= pages.Keys && pages == old(pages) && p == old(p) && Sized(moved)
        invariant forall q :: q in pages && q !in todo && q >= shift ==> PageMoved(pages, moved, q, shift)
        decreases todo
      {
        var q :| q in todo;
        if q >= shift { moved := moved[q - shift := pages[q]]; }
        todo := todo - {q};
      }
      p, pages := p - shift * PAGE_SIZE, moved;
    }

    /** remove_arg_zero: go past the first NUL at or after `p`, page by page. */
    method RemoveArgZero() returns (r: Option<Errno>)
      requires Sized(pages) && p >= 0
      modifies this`p, this`argc
      ensures p >= old(p)
      ensures old(argc) == 0 ==> r.None? && p == old(p) && argc == 0
      ensures old(argc) > 0 && r.None? ==> argc == old(argc) - 1 && p > old(p) && Mapped(pages, p - 1) && At(pages, p - 1) == 0
      ensures forall k :: old(p) <= k < (if r.None? then p - 1 else p) ==> Mapped(pages, k) && At(pages, k) != 0
      ensures r.Some? ==> r.value == EFAULT && !Mapped(pages, p)
    {
      if argc == 0 { return None; }
      while true
        invariant argc == old(argc) && p >= old(p)
        invariant forall k :: old(p) <= k < p ==> Mapped(pages, k) && At(pages, k) != 0
        decreases PagesFrom(pages, p / PAGE_SIZE)
      {
        var offset: nat, n: nat := p % PAGE_SIZE, p / PAGE_SIZE;
        if n !in pages { return Some(EFAULT); }
        while offset < PAGE_SIZE && pages[n][offset] != 0
          invariant argc == old(argc) && old(p) <= p == n * PAGE_SIZE + offset && offset <= PAGE_SIZE
          invariant forall k :: old(p) <= k < p ==> Mapped(pages, k) && At(pages, k) != 0
        {
          assert p / PAGE_SIZE == n && p % PAGE_SIZE == offset;
          offset, p := offset + 1, p + 1;
        }
        if offset < PAGE_SIZE {
          assert p / PAGE_SIZE == n && p % PAGE_SIZE == offset;
          break;
        }
        assert p / PAGE_SIZE == n + 1 && n in PagesFrom(pages, n);
      }
      p, argc := p + 1, argc - 1;
      return None;
    }
  }

  function PagesFrom(m: Pages, n: nat): set<nat> { set q | q in m && q >= n }

  /** The bytes that strings and pointers may take: a quarter of the stack limit, between 128 KiB and 6 MiB. */
  function ArgLimit(rlimit: nat): nat { Max(Min(STK_LIM / 4 * 3, rlimit / 4), ARG_MAX) }

  lemma FlatConcat(a: seq<Str>, b: seq<Str>)
    ensures Flat(a + b) == Flat(a) + Flat(b)
  {
    FlatSplit(a + b, |a|);
    assert (a + b)[..|a|] == a && (a + b)[|a|..] == b;
  }

  lemma FitsConcat(a: seq<Str>, b: seq<Str>, top: nat, argmin: nat, unavailable: set<nat>)
    ensures Flat(a + b) == Flat(a) + Flat(b)
    ensures Fits(a + b, top, argmin, unavailable) <==>
              Fits(b, top, argmin, unavailable) && Fits(a, top - |Flat(b)|, argmin, unavailable)
  {
    FlatConcat(a, b);
    assert forall i :: 0 <= i < |a| ==> (a + b)[i] == a[i];
    assert forall i :: 0 <= i < |b| ==> (a + b)[|a| + i] == b[i];
  }

  /** Page q is found again as page q - shift. */
  predicate PageMoved(m: Pages, r: Pages, q: nat, shift: nat)
    requires q in m && q >= shift
  {
    q - shift in r && r[q - shift] == m[q]
  }

  ghost predicate MovedDown(m: Pages, r: Pages, shift: nat) {
    forall q {:trigger PageMoved(m, r, q, shift)} :: q in m && q >= shift ==> PageMoved(m, r, q, shift)
  }

  lemma ShiftedHolds(m: Pages, r: Pages, shift: nat, a: nat, bs: seq<Byte>)
    requires Sized(m) && Sized(r) && MovedDown(m, r, shift) && a >= shift * PAGE_SIZE && Holds(m, a, bs)
    ensures Holds(r, a - shift * PAGE_SIZE, bs)
  {
    var b := a - shift * PAGE_SIZE;
    forall k | b <= k < b + |bs| ensures Mapped(r, k) && At(r, k) == bs[k - b] {
      var k0 := k + shift * PAGE_SIZE;
      assert k0 / PAGE_SIZE == k / PAGE_SIZE + shift && k0 % PAGE_SIZE == k % PAGE_SIZE;
      assert Mapped(m, k0) && At(m, k0) == bs[k0 - a];
      assert PageMoved(m, r, k0 / PAGE_SIZE, shift);
    }
  }

  /** Every string is short enough, all of them end above argmin, and every page they need can be had. */
  ghost predicate Fits(args: seq<Str>, top: nat, argmin: nat, unavailable: set<nat>) {
    && (forall i :: 0 <= i < |args| ==> |args[i]| + 1 <= MAX_ARG_STRLEN)
    && |Flat(args)| <= top && (args != [] ==> top - |Flat(args)| >= argmin)
    && forall k :: top - |Flat(args)| <= k < top ==> k / PAGE_SIZE !in unavailable
  }

  lemma FlatEnd(args: seq<Str>)
    ensures Flat(args[|args|..]) == []
  {
  }

  /** Whether one more string in front fits. */
  lemma FitsStep(args: seq<Str>, i: nat, top: nat, argmin: nat, unavailable: set<nat>)
    requires i < |args| && Fits(args[i + 1..], top, argmin, unavailable)
    ensures Flat(args[i..]) == (args[i] + [0]) + Flat(args[i + 1..])
    ensures var p, len := top - |Flat(args[i + 1..])|, |args[i]| + 1;
            Fits(args[i..], top, argmin, unavailable) <==>
              len <= MAX_ARG_STRLEN && len <= p && p - len >= argmin && forall k :: p - len <= k < p ==> k / PAGE_SIZE !in unavailable
    ensures !Fits(args[i..], top, argmin, unavailable) ==> !Fits(args, top, argmin, unavailable)
  {
    FlatLast(args, i);
    assert args[i + 1..] == args[i..][1..];
    FlatSplit(args, i);
    forall k | 0 <= k < |args| - i ensures args[i..][k] == args[i + k] { }
  }

  lemma HoldsJoin(m: Pages, r: Pages, a: nat, bs: seq<Byte>, cs: seq<Byte>)
    requires Sized(m) && Sized(r) && Holds(r, a, bs) && Holds(m, a + |bs|, cs) && SameFrom(m, r, a + |bs|)
    ensures Holds(r, a, bs + cs)
  {
  }

  // ---- the forward walk of create_elf_tables ----

  /** strnlen_user: the length with the NUL, more than `max` if there is none in time, 0 on a fault. */
  function StrLen(m: Pages, a: nat, max: nat): (n: nat)
    requires Sized(m)
    ensures n <= max + 1
    decreases max
  {
    if max == 0 then 1
    else if !Mapped(m, a) then 0
    else if At(m, a) == 0 then 1
    else
      var n := StrLen(m, a + 1, max - 1);
      if n == 0 then 0 else n + 1
  }

  lemma {:induction false} StrLenFinds(m: Pages, a: nat, s: Str, max: nat)
    requires Sized(m) && 0 !in s && |s| < max && Holds(m, a, s + [0])
    ensures StrLen(m, a, max) == |s| + 1
    decreases |s|
  {
    var bs := s + [0];
    assert Mapped(m, a) && At(m, a) == bs[0];
    if s != [] {
      assert s[1..] + [0] == bs[1..];
      assert forall k :: a + 1 <= k < a + |bs| ==> Mapped(m, k) && At(m, k) == bs[k - a];
      StrLenFinds(m, a + 1, s[1..], max - 1);
    }
  }

  /** The addresses of `n` strings from `a` on, and where they end; None if one has no NUL in time. */
  function Pointers(m: Pages, a: nat, n: nat, max: nat): Option<(seq<nat>, nat)>
    requires Sized(m)
    decreases n
  {
    if n == 0 then Some(([], a))
    else
      var len := StrLen(m, a, max);
      if len == 0 || len > max then None
      else
        var rest := Pointers(m, a + len, n - 1, max);
        if rest.None? then None else Some(([a] + rest.value.0, rest.value.1))
  }

  method StrnlenUser(m: Pages, a: nat, max: nat) returns (n: nat)
    requires Sized(m)
    ensures n == StrLen(m, a, max)
  {
    n := 0;
    while n < max
      invariant n <= max && StrLen(m, a, max) == if StrLen(m, a + n, max - n) == 0 then 0 else n + StrLen(m, a + n, max - n)
    {
      if !Mapped(m, a + n) { return 0; }
      if At(m, a + n) == 0 { return n + 1; }
      n := n + 1;
    }
    return n + 1;
  }

  /** One of the two loops of create_elf_tables. */
  method PutPointers(m: Pages, start: nat, count: nat, max: nat) returns (r: Option<(seq<nat>, nat)>)
    requires Sized(m)
    ensures r == Pointers(m, start, count, max)
  {
    var p: nat, ptrs: seq<nat>, left: nat := start, [], count;
    AfterNothing(Pointers(m, start, count, max));
    while left > 0
      invariant left <= count
      invariant Pointers(m, start, count, max) == After(ptrs, Pointers(m, p, left, max))
    {
      left := left - 1;
      var len := StrnlenUser(m, p, max);
      if len == 0 || len > max { return None; }
      AfterOne(ptrs, p, Pointers(m, p + len, left, max));
      ptrs, p := ptrs + [p], p + len;
    }
    assert ptrs + [] == ptrs;
    return Some((ptrs, p));
  }

  function After(ptrs: seq<nat>, rest: Option<(seq<nat>, nat)>): Option<(seq<nat>, nat)> {
    if rest.None? then None else Some((ptrs + rest.value.0, rest.value.1))
  }

  lemma AfterNothing(rest: Option<(seq<nat>, nat)>)
    ensures After([], rest) == rest
  {
    if rest.Some? { assert [] + rest.value.0 == rest.value.0; }
  }

  lemma AfterOne(ptrs: seq<nat>, p: nat, rest: Option<(seq<nat>, nat)>)
    ensures After(ptrs, After([p], rest)) == After(ptrs + [p], rest)
  {
    if rest.Some? { assert ptrs + ([p] + rest.value.0) == (ptrs + [p]) + rest.value.0; }
  }

  /** User strings end at their first NUL. */
  predicate NoNul(args: seq<Str>) { forall i :: 0 <= i < |args| ==> 0 !in args[i] }

  predicate Clean(args: seq<Str>, max: nat) { forall i :: 0 <= i < |args| ==> 0 !in args[i] && |args[i]| < max }

  /** Each pointer leads to its string and NUL. */
  ghost predicate PointTo(m: Pages, ptrs: seq<nat>, args: seq<Str>)
    requires Sized(m)
  {
    |ptrs| == |args| && forall i :: 0 <= i < |args| ==> Holds(m, ptrs[i], args[i] + [0])
  }

  lemma HoldsSplit(m: Pages, a: nat, bs: seq<Byte>, cs: seq<Byte>)
    requires Sized(m) && Holds(m, a, bs + cs)
    ensures Holds(m, a, bs) && Holds(m, a + |bs|, cs)
  {
  }

  /** The forward walk finds exactly the strings of the flat copy, in order, and stops behind them. */
  lemma {:induction false} WalkFinds(m: Pages, a: nat, args: seq<Str>, max: nat)
    requires Sized(m) && Clean(args, max) && Holds(m, a, Flat(args))
    ensures var r := Pointers(m, a, |args|, max);
            r.Some? && PointTo(m, r.value.0, args) && r.value.1 == a + |Flat(args)|
    decreases |args|
  {
    if args != [] {
      var bs := args[0] + [0];
      HoldsSplit(m, a, bs, Flat(args[1..]));
      StrLenFinds(m, a, args[0], max);
      WalkFinds(m, a + |bs|, args[1..], max);
    }
  }

  /** remove_arg_zero drops exactly the first argument. */
  lemma RemovedIs(m: Pages, a: nat, q: nat, args: seq<Str>, rest: seq<Byte>)
    requires Sized(m) && args != [] && NoNul(args) && Holds(m, a, Flat(args) + rest)
    requires a < q && Mapped(m, q - 1) && At(m, q - 1) == 0
    requires forall k :: a <= k < q - 1 ==> Mapped(m, k) && At(m, k) != 0
    ensures q == a + |args[0]| + 1 && Holds(m, q, Flat(args[1..]) + rest)
  {
    var bs, n := args[0] + [0], |args[0]|;
    assert Flat(args) + rest == bs + (Flat(args[1..]) + rest);
    HoldsSplit(m, a, bs, Flat(args[1..]) + rest);
    assert Mapped(m, a + n) && At(m, a + n) == bs[n] == 0;
    forall k | a <= k < a + n ensures Mapped(m, k) && At(m, k) != 0 {
      assert At(m, k) == bs[k - a] == args[0][k - a] && args[0][k - a] in args[0];
    }
  }

  /** What the new program sees. */
  datatype Image = Image(argv: seq<nat>, envp: seq<nat>, argStart: nat, argEnd: nat, envEnd: nat, exec: nat)

  /** The bytes that the strings and the pointers to them take. */
  function Room(filename: Str, argv: seq<Str>, envp: seq<Str>): nat { |Flat(argv + envp + [filename])| + 8 * (|argv| + |envp|) }

  /** What fits, in numbers: at most 128 KiB, or at most 6 MiB and a quarter of the stack limit, in strings below 128 KiB. */
  lemma FitsInNumbers(filename: Str, argv: seq<Str>, envp: seq<Str>, rlimit: nat, top: nat, unavailable: set<nat>)
    requires top >= STK_LIM
    ensures ArgLimit(rlimit) <= top
    ensures var all, pointers, room := argv + envp + [filename], PTR_SIZE * (|argv| + |envp|), Room(filename, argv, envp);
            pointers < ArgLimit(rlimit) && Fits(all, top, top - ArgLimit(rlimit) + pointers, unavailable) <==>
              && (room <= 131072 || (room <= 6291456 && 4 * room <= rlimit))
              && (forall i :: 0 <= i < |all| ==> |all[i]| < 131072)
              && (forall k :: top - |Flat(all)| <= k < top ==> k / PAGE_SIZE !in unavailable)
  {
    var all := argv + envp + [filename];
    FlatConcat(argv + envp, [filename]);
    assert |Flat([filename])| == |filename| + 1;
    var flat := |Flat(all)|;
    hide Flat;
  }

  /**
   * From the strings of the caller to the pointers of the new program: on success every argument and
   * every environment string is found again under its pointer, in order, the file name behind them.
   */
  method Execve(filename: Str, argv: seq<Str>, envp: seq<Str>, rlimit: nat, top: nat, unavailable: set<nat>, shift: nat)
    returns (r: Result<Image, Errno>, m: Pages)
    requires top >= STK_LIM && shift * PAGE_SIZE + ArgLimit(rlimit) <= top
    requires NoNul(argv) && NoNul(envp)
    ensures Sized(m)
    ensures var all, room := argv + envp + [filename], Room(filename, argv, envp);
            r.Ok? <==>
              && (room <= 131072 || (room <= 6291456 && 4 * room <= rlimit))
              && (forall i :: 0 <= i < |all| ==> |all[i]| < 131072)
              && (forall k :: top - |Flat(all)| <= k < top ==> k / PAGE_SIZE !in unavailable)
    ensures r.Ok? ==>
      && PointTo(m, r.value.argv, argv) && PointTo(m, r.value.envp, envp) && Holds(m, r.value.exec, filename + [0])
      && r.value.argEnd == r.value.argStart + |Flat(argv)| && r.value.envEnd == r.value.argEnd + |Flat(envp)| == r.value.exec
  {
    FitsInNumbers(filename, argv, envp, rlimit, top, unavailable);
    hide Fits, ArgLimit;
    var b := new Binprm(top, unavailable);
    var err, exec := b.CopyAll(filename, argv, envp, rlimit);
    m := b.pages;
    if err.Some? { return Err(err.value), m; }
    ghost var all := argv + envp + [filename];
    FlatConcat(argv + envp, [filename]);
    FlatConcat(argv, envp);
    assert |Flat([filename])| == |filename| + 1;
    ghost var before, p := b.pages, b.p;
    b.ShiftStack(shift);
    m, exec := b.pages, exec - shift * PAGE_SIZE;
    ShiftedHolds(before, m, shift, p, Flat(all));
    FitsClean(argv, envp, filename, top, top - ArgLimit(rlimit) + PTR_SIZE * (|argv| + |envp|), unavailable);
    var image := Tables(m, b.p, exec, MAX_ARG_STRLEN, |argv|, |envp|, filename, argv, envp);
    return Ok(image), m;
  }

  lemma FitsClean(argv: seq<Str>, envp: seq<Str>, filename: Str, top: nat, argmin: nat, unavailable: set<nat>)
    requires Fits(argv + envp + [filename], top, argmin, unavailable) && NoNul(argv) && NoNul(envp)
    ensures Clean(argv, MAX_ARG_STRLEN) && Clean(envp, MAX_ARG_STRLEN)
  {
    var all := argv + envp + [filename];
    assert forall i :: 0 <= i < |argv| ==> argv[i] == all[i];
    assert forall i :: 0 <= i < |envp| ==> envp[i] == all[|argv| + i];
  }

  /** The two loops of create_elf_tables over a stack that holds the strings. */
  method Tables(m: Pages, start: nat, exec: nat, max: nat, argc: nat, envc: nat,
                ghost filename: Str, ghost argv: seq<Str>, ghost envp: seq<Str>) returns (r: Image)
    requires Sized(m) && Holds(m, start, Flat(argv + envp + [filename])) && Clean(argv, max) && Clean(envp, max)
    requires argc == |argv| && envc == |envp|
    ensures PointTo(m, r.argv, argv) && PointTo(m, r.envp, envp) && Holds(m, r.envEnd, filename + [0])
    ensures r.argStart == start && r.argEnd == start + |Flat(argv)| && r.envEnd == r.argEnd + |Flat(envp)| && r.exec == exec
  {
    StringsFound(m, start, filename, argv, envp, max);
    var a := PutPointers(m, start, argc, max);
    var e := PutPointers(m, a.value.1, envc, max);
    return Image(a.value.0, e.value.0, start, a.value.1, e.value.1, exec);
  }

  lemma StringsFound(m: Pages, a: nat, filename: Str, argv: seq<Str>, envp: seq<Str>, max: nat)
    requires Sized(m) && Holds(m, a, Flat(argv + envp + [filename])) && Clean(argv, max) && Clean(envp, max)
    ensures var r := Pointers(m, a, |argv|, max);
            && r.Some? && PointTo(m, r.value.0, argv) && r.value.1 == a + |Flat(argv)|
            && var q := Pointers(m, r.value.1, |envp|, max);
               q.Some? && PointTo(m, q.value.0, envp) && q.value.1 == r.value.1 + |Flat(envp)|
               && Holds(m, q.value.1, filename + [0])
  {
    hide Pointers, Holds, PointTo, Flat;
    FlatParts(m, a, filename, argv, envp);
    WalkFinds(m, a, argv, max);
    WalkFinds(m, a + |Flat(argv)|, envp, max);
  }

  lemma FlatOne(s: Str)
    ensures Flat([s]) == s + [0]
  {
    assert [s][1..] == [];
  }

  lemma FlatParts(m: Pages, a: nat, filename: Str, argv: seq<Str>, envp: seq<Str>)
    requires Sized(m) && Holds(m, a, Flat(argv + envp + [filename]))
    ensures Holds(m, a, Flat(argv)) && Holds(m, a + |Flat(argv)|, Flat(envp))
    ensures Holds(m, a + |Flat(argv)| + |Flat(envp)|, filename + [0])
  {
    hide Holds, Flat;
    FlatConcat(argv + envp, [filename]);
    FlatConcat(argv, envp);
    FlatOne(filename);
    HoldsSplit(m, a, Flat(argv) + Flat(envp), Flat([filename]));
    HoldsSplit(m, a, Flat(argv), Flat(envp));
  }

  /** The chunk ends at a page boundary or before it. */
  lemma ChunkInPage(pos: nat, offset: nat, chunk: nat)
    requires chunk > 0 && offset + chunk <= PAGE_SIZE
    requires (pos + chunk) % PAGE_SIZE == (offset + chunk) % PAGE_SIZE
    ensures pos == pos / PAGE_SIZE * PAGE_SIZE + offset
    ensures forall k :: pos <= k < pos + chunk ==> k / PAGE_SIZE == pos / PAGE_SIZE
  {
  }

  lemma ChunkStored(m: Pages, n: nat, offset: nat, bs: seq<Byte>, len: nat, chunk: nat, pos: nat, top: nat)
    requires Sized(m) && offset + chunk <= PAGE_SIZE && len + chunk <= |bs| && pos == n * PAGE_SIZE + offset
    requires pos + chunk + (|bs| - len - chunk) == top && Holds(m, pos + chunk, bs[len + chunk..])
    ensures var r := Store(m, n, offset, bs[len..len + chunk]);
            Holds(r, pos, bs[len..]) && SameFrom(m, r, top)
  {
    var r := Store(m, n, offset, bs[len..len + chunk]);
    forall k | pos <= k < top ensures Mapped(r, k) && At(r, k) == bs[len..][k - pos] {
      StoreAt(m, n, offset, bs[len..len + chunk], k);
    }
    forall k | top <= k && Mapped(m, k) ensures Mapped(r, k) && At(r, k) == At(m, k) {
      StoreAt(m, n, offset, bs[len..len + chunk], k);
    }
  }
}
