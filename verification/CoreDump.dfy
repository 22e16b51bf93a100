/**
 * elf_core_dump of fs/binfmt_elf.c: the offsets are planned first, then everything is emitted in
 * order; the dump may stop at any point, at the core limit or on an error.
 */
module CoreDump {
  import opened Common
  import opened CoreModel

  /** The walk over the areas of a process and then the gate area, by first_vma and next_vma. */
  datatype Cursor = InList(i: nat) | Gate | End

  function FirstVma(list: seq<Vma>, gate: Option<Vma>): Cursor {
    if list != [] then InList(0) else if gate.Some? then Gate else End
  }

  function NextVma(c: Cursor, list: seq<Vma>, gate: Option<Vma>): Cursor
    requires !c.End?
  {
    if c.InList? && c.i + 1 < |list| then InList(c.i + 1)
    else if c.Gate? then End
    else if gate.Some? then Gate else End
  }

  function AllVmas(list: seq<Vma>, gate: Option<Vma>): seq<Vma> {
    list + if gate.Some? then [gate.value] else []
  }

  /** Where the walk is after `i` steps. */
  function CursorAt(i: nat, list: seq<Vma>, gate: Option<Vma>): Cursor {
    if i < |list| then InList(i) else if i == |list| && gate.Some? then Gate else End
  }

  function Visited(c: Cursor, list: seq<Vma>, gate: Option<Vma>): Vma
    requires c.InList? ==> c.i < |list|
    requires c.Gate? ==> gate.Some?
    requires !c.End?
  {
    if c.InList? then list[c.i] else gate.value
  }

  /** The walk visits every area once, in order, and ends. */
  lemma WalkIsComplete(i: nat, list: seq<Vma>, gate: Option<Vma>)
    requires i <= |AllVmas(list, gate)|
    ensures FirstVma(list, gate) == CursorAt(0, list, gate)
    ensures CursorAt(i, list, gate).End? <==> i == |AllVmas(list, gate)|
    ensures i < |AllVmas(list, gate)| ==>
      && NextVma(CursorAt(i, list, gate), list, gate) == CursorAt(i + 1, list, gate)
      && Visited(CursorAt(i, list, gate), list, gate) == AllVmas(list, gate)[i]
  {
  }

  /** The bytes written; holes are skipped over. */
  function Cost(cs: seq<Chunk>): nat {
    if cs == [] then 0 else Cost(cs[..|cs| - 1]) + if cs[|cs| - 1].item.Hole? then 0 else cs[|cs| - 1].size
  }

  lemma {:induction false} CostConcat(a: seq<Chunk>, b: seq<Chunk>)
    ensures Cost(a + b) == Cost(a) + Cost(b)
    decreases |b|
  {
    if b == [] {
      assert a + b == a;
    } else {
      assert (a + b)[..|a + b| - 1] == a + b[..|b| - 1];
      CostConcat(a, b[..|b| - 1]);
    }
  }

  /**
   * The log grew by a beginning of `seg`, and by all of it if `ok`.  Where a limit is the only reason
   * to stop, all of `seg` would have been too much.
   */
  ghost predicate Wrote(lim: Option<nat>, l0: seq<Chunk>, l1: seq<Chunk>, seg: seq<Chunk>, ok: bool) {
    && l0 <= l1 <= l0 + seg && (ok ==> l1 == l0 + seg)
    && (!ok && lim.Some? ==> Cost(l0 + seg) > lim.value)
  }

  lemma WroteThen(lim: Option<nat>, l0: seq<Chunk>, l1: seq<Chunk>, l2: seq<Chunk>, a: seq<Chunk>, b: seq<Chunk>, ok: bool)
    requires Wrote(lim, l0, l1, a, true) && Wrote(lim, l1, l2, b, ok)
    ensures Wrote(lim, l0, l2, a + b, ok)
  {
    hide Cost;
    assert l0 + (a + b) == l0 + a + b;
  }

  lemma WrotePart(lim: Option<nat>, l0: seq<Chunk>, l1: seq<Chunk>, a: seq<Chunk>, b: seq<Chunk>)
    requires Wrote(lim, l0, l1, a, false)
    ensures Wrote(lim, l0, l1, a + b, false)
  {
    hide Cost;
    assert l0 + (a + b) == l0 + a + b;
    CostConcat(l0 + a, b);
  }

  lemma WroteNothing(lim: Option<nat>, l: seq<Chunk>)
    ensures Wrote(lim, l, l, [], true)
  {
  }

  lemma WroteWhole(lim: Option<nat>, l: seq<Chunk>, plan: seq<Chunk>, ok: bool)
    requires Wrote(lim, [], l, plan, ok)
    ensures l <= plan && (ok ==> l == plan) && (!ok && lim.Some? ==> Cost(plan) > lim.value)
  {
    assert [] + plan == plan;
  }

  lemma HoleIsFree(l: seq<Chunk>, c: Chunk)
    requires c.item.Hole?
    ensures Cost(l + [c]) == Cost(l)
  {
    assert (l + [c])[..|l|] == l;
  }

  lemma WroteOne(lim: nat, l: seq<Chunk>, c: Chunk)
    requires !c.item.Hole?
    ensures Cost(l + [c]) == Cost(l) + c.size
    ensures Wrote(Some(lim), l, l, [c], false) <==> Cost(l) + c.size > lim
  {
    assert (l + [c])[..|l|] == l;
  }

  lemma AlignSum(p: nat, n: nat)
    requires p % 4 == 0
    ensures AlignUp(p + n, 4) == p + AlignUp(n, 4)
  {
    AlignUpLeast(p + n, 4, p + AlignUp(n, 4));
    MultiplesApart(AlignUp(p + n, 4), p + AlignUp(n, 4), 4);
  }

  class Coredump {
    const limit: nat  // the core limit
    const flaky: bool // a write or a seek may fail
    var pos: nat
    var written: nat
    var log: seq<Chunk>

    constructor (limit: nat, flaky: bool)
      ensures pos == 0 && log == [] && written == 0 && this.limit == limit && this.flaky == flaky && Metered()
    {
      pos, log, written, this.limit, this.flaky := 0, [], 0, limit, flaky;
    }

    /** What has been written is accounted for and within the limit. */
    ghost predicate Metered()
      reads this
    {
      written == Cost(log) <= limit
    }

    /** The limit, where nothing else can stop the dump. */
    ghost function Bound(): Option<nat> { if flaky then None else Some(limit) }

    /** dump_emit: nothing beyond the limit; a write may fail. */
    method Emit(size: nat, item: Item) returns (ok: bool)
      requires Metered() && !item.Hole?
      modifies this
      ensures Metered() && Wrote(Bound(), old(log), log, [Chunk(old(pos), size, item)], ok)
      ensures ok ==> pos == old(pos) + size
    {
      WroteOne(limit, log, Chunk(pos, size, item));
      hide Cost;
      if written + size > limit { return false; }
      if flaky { ok := *; } else { ok := true; }
      if ok {
        log := log + [Chunk(pos, size, item)];
        pos, written := pos + size, written + size;
      }
    }

    method Skip(n: nat) returns (ok: bool)
      modifies this`pos
      ensures ok || flaky
      ensures ok ==> pos == old(pos) + n
    {
      if flaky { ok := *; } else { ok := true; }
      if ok { pos := pos + n; }
    }

    /** dump_align to a multiple of 4. */
    method Align4() returns (ok: bool)
      modifies this`pos
      ensures ok || flaky
      ensures ok ==> pos == AlignUp(old(pos), 4)
    {
      var mod := pos % 4;
      if mod != 0 { ok := Skip(4 - mod); } else { ok := true; }
    }

    method WriteNote(n: Note) returns (ok: bool)
      requires Metered() && pos % 4 == 0
      modifies this
      ensures Metered() && Wrote(Bound(), old(log), log, NoteChunks(n, old(pos)), ok)
      ensures ok ==> pos == old(pos) + NoteSize(n) && pos % 4 == 0
    {
      hide AlignUp, Cost, Wrote;
      AlignSum(pos + NHDR_SIZE, |n.name| + 1);
      AlignSum(pos + NHDR_SIZE + AlignUp(|n.name| + 1, 4), n.size);
      ghost var l0, cs := log, NoteChunks(n, pos);
      NoteParts(n, pos);
      ok := WriteNoteHead(n);
      if !ok {
        WrotePart(Bound(), l0, log, [cs[0], cs[1]], [cs[2]]);
        return;
      }
      ghost var l1 := log;
      ok := Emit(n.size, NoteData(n));
      WroteThen(Bound(), l0, l1, log, [cs[0], cs[1]], [cs[2]], ok);
      if !ok { return; }
      ok := Align4();
      if !ok { Interrupted(l0, log, cs, []); }
    }

    method WriteNoteHead(n: Note) returns (ok: bool)
      requires Metered()
      modifies this
      ensures Metered() && Wrote(Bound(), old(log), log, NoteChunks(n, old(pos))[..2], ok)
      ensures ok ==> pos == AlignUp(old(pos) + NHDR_SIZE + |n.name| + 1, 4)
    {
      hide AlignUp, Cost, Wrote;
      ghost var l0, cs := log, NoteChunks(n, pos);
      NoteParts(n, pos);
      ok := Emit(NHDR_SIZE, NoteHead(n));
      if !ok {
        WrotePart(Bound(), l0, log, [cs[0]], [cs[1]]);
        return;
      }
      ghost var l1 := log;
      ok := Emit(|n.name| + 1, NoteName(n));
      WroteThen(Bound(), l0, l1, log, [cs[0]], [cs[1]], ok);
      if !ok { return; }
      ok := Align4();
      if !ok { Interrupted(l0, log, cs[..2], []); }
    }

    /** A seek failed behind `a`. */
    lemma Interrupted(l0: seq<Chunk>, l1: seq<Chunk>, a: seq<Chunk>, b: seq<Chunk>)
      requires flaky && Wrote(Bound(), l0, l1, a, true)
      ensures Wrote(Bound(), l0, l1, a + b, false) && Wrote(Bound(), l0, l1, a, false)
    {
    }

    /** The notes `done` of `target` are out, beginning at position p0. */
    ghost predicate NotesOut(l0: seq<Chunk>, p0: nat, done: seq<Note>, target: seq<Note>)
      reads this
    {
      && Metered() && done <= target && pos % 4 == 0
      && Wrote(Bound(), l0, log, AllNoteChunks(done, p0), true) && pos == p0 + NotesSize(done)
    }

    /** Write the next note of `target`. */
    method NextNote(n: Note, ghost l0: seq<Chunk>, ghost p0: nat, ghost done: seq<Note>, ghost target: seq<Note>) returns (ok: bool)
      requires NotesOut(l0, p0, done, target) && done + [n] <= target
      modifies this
      ensures if ok then NotesOut(l0, p0, done + [n], target) else Metered() && Wrote(Bound(), l0, log, AllNoteChunks(target, p0), false)
    {
      hide Cost, Wrote, NoteChunks, AllNoteChunks, NotesSize, NoteSize;
      ghost var l := log;
      ok := WriteNote(n);
      var more := done + [n];
      assert more[..|done|] == done && more[..|more|] == more;
      NotesSnoc(more, |done|, p0);
      WroteThen(Bound(), l0, l, log, AllNoteChunks(done, p0), NoteChunks(n, p0 + NotesSize(done)), ok);
      if !ok {
        NotesPrefix(target, |more|, p0);
        assert target[..|more|] == more;
        WrotePart(Bound(), l0, log, AllNoteChunks(more, p0), AllNoteChunks(target[|more|..], p0 + NotesSize(more)));
      }
    }

    /** The filled slots 1 to n - 1 of a thread. */
    method WriteSlots(slots: seq<Option<Note>>, n: nat, ghost l0: seq<Chunk>, ghost p0: nat, ghost base: seq<Note>, ghost target: seq<Note>)
      returns (ok: bool)
      requires 1 <= n <= |slots| && NotesOut(l0, p0, base, target) && base + Filled(slots[1..n]) <= target
      modifies this
      ensures if ok then NotesOut(l0, p0, base + Filled(slots[1..n]), target) else Metered() && Wrote(Bound(), l0, log, AllNoteChunks(target, p0), false)
    {
      var i := 1;
      assert slots[1..1] == [] && base + [] == base;
      while i < n
        invariant 1 <= i <= n && NotesOut(l0, p0, base + Filled(slots[1..i]), target)
      {
        hide Cost, Wrote, AllNoteChunks, NotesSize, Filled;
        FilledStep(slots, i, n, base);
        if slots[i].Some? {
          ok := NextNote(slots[i].value, l0, p0, base + Filled(slots[1..i]), target);
          if !ok { return; }
        }
        i := i + 1;
      }
      return true;
    }

    /** write_note_info: the notes of the process come between the first note and the others of the first thread. */
    method WriteNoteInfo(info: NoteInfo, n: nat) returns (ok: bool)
      requires Metered() && pos % 4 == 0 && WellFilled(info, n)
      modifies this
      ensures Metered() && Wrote(Bound(), old(log), log, AllNoteChunks(WriteOrder(info, n), old(pos)), ok)
      ensures ok ==> pos == old(pos) + NotesSize(WriteOrder(info, n))
    {
      ghost var l0, p0, target := log, pos, WriteOrder(info, n);
      OrderWhole(info, n);
      WroteNothing(Bound(), log);
      ok := WriteFirst(info, n, l0, p0);
      if !ok { return; }
      var t := 1;
      while t < |info.threads|
        invariant 1 <= t <= |info.threads| && NotesOut(l0, p0, OrderTo(info, n, t), target)
      {
        hide Cost, Wrote, AllNoteChunks, NotesSize, Filled, WriteOrder, OrderTo;
        ghost var done := OrderTo(info, n, t);
        OrderStep(info, n, t);
        ok := NextNote(info.threads[t][0].value, l0, p0, done, target);
        if !ok { return; }
        ok := WriteSlots(info.threads[t], n, l0, p0, done + [info.threads[t][0].value], target);
        if !ok { return; }
        t := t + 1;
      }
      return true;
    }

    method WriteFirst(info: NoteInfo, n: nat, ghost l0: seq<Chunk>, ghost p0: nat) returns (ok: bool)
      requires WellFilled(info, n) && NotesOut(l0, p0, [], WriteOrder(info, n)) && OrderTo(info, n, 1) <= WriteOrder(info, n)
      modifies this
      ensures if ok then NotesOut(l0, p0, OrderTo(info, n, 1), WriteOrder(info, n))
              else Metered() && Wrote(Bound(), l0, log, AllNoteChunks(WriteOrder(info, n), p0), false)
    {
      hide Cost, Wrote, AllNoteChunks, NotesSize, Filled, WriteOrder;
      ghost var target := WriteOrder(info, n);
      FirstOrder(info, n);
      NextOf(target, 0);
      ok := NextNote(info.threads[0][0].value, l0, p0, target[..0], target);
      if !ok { return; }
      NextOf(target, 1);
      ok := NextNote(info.psinfo, l0, p0, target[..1], target);
      if !ok { return; }
      NextOf(target, 2);
      ok := NextNote(info.signote, l0, p0, target[..2], target);
      if !ok { return; }
      NextOf(target, 3);
      ok := NextNote(info.auxv, l0, p0, target[..3], target);
      if !ok { return; }
      if info.files.Some? {
        NextOf(target, 4);
        ok := NextNote(info.files.value, l0, p0, target[..4], target);
        if !ok { return; }
      }
      ok := WriteSlots(info.threads[0], n, l0, p0, target[..4 + |FilesNote(info)|], target);
    }

    /** The program headers of the areas, each with the running offset. */
    method WritePhdrs(list: seq<Vma>, gate: Option<Vma>, filesz: seq<nat>, data: nat) returns (ok: bool)
      requires Metered() && pos == EHDR_SIZE + PHDR_SIZE && SizesOf(AllVmas(list, gate), filesz)
      modifies this
      ensures Metered()
      ensures var all := AllVmas(list, gate); Wrote(Bound(), old(log), log, PhdrChunks(all, data, |all|), ok)
      ensures ok ==> pos == NoteOffset(AllVmas(list, gate))
    {
      ghost var all := AllVmas(list, gate);
      var i, vma, offset := 0, FirstVma(list, gate), data;
      hide Cost, LoadOffset;
      WalkIsComplete(0, list, gate);
      LoadOffsetZero(all, data);
      WroteNothing(Bound(), log);
      while !vma.End?
        invariant 0 <= i <= |all| && vma == CursorAt(i, list, gate) && offset == LoadOffset(all, data, i)
        invariant Metered() && pos == EHDR_SIZE + PHDR_SIZE * (i + 1) && Wrote(Bound(), old(log), log, PhdrChunks(all, data, i), true)
        decreases |all| - i
      {
        hide Wrote;
        LoadOffsetStep(all, data, i);
        WalkIsComplete(i, list, gate);
        ghost var l := log;
        ok := Emit(PHDR_SIZE, PhdrLoad(i, offset, filesz[i]));
        WroteThen(Bound(), old(log), l, log, PhdrChunks(all, data, i), [PhdrChunk(all, data, i)], ok);
        if !ok {
          PhdrsPrefix(all, data, i + 1);
          WrotePart(Bound(), old(log), log, PhdrChunks(all, data, i + 1), PhdrChunks(all, data, |all|)[i + 1..]);
          return;
        }
        offset, i, vma := offset + filesz[i], i + 1, NextVma(vma, list, gate);
        if i <= |all| { WalkIsComplete(i, list, gate); }
      }
      return true;
    }

    /** The pages of one area, holes skipped. */
    method WritePages(all: seq<Vma>, data: nat, present: set<(nat, nat)>, i: nat, size: nat) returns (ok: bool)
      requires Metered() && i < |all| && size == all[i].dumpSize && size % PAGE_SIZE == 0 && pos == LoadOffset(all, data, i)
      modifies this
      ensures Metered() && Wrote(Bound(), old(log), log, PageChunks(all, data, present, i, size / PAGE_SIZE), ok)
      ensures ok ==> pos == old(pos) + size
    {
      hide Cost, LoadOffset;
      var addr, k := 0, 0;
      WroteNothing(Bound(), log);
      while addr < size
        invariant 0 <= addr <= size && addr == k * PAGE_SIZE && k <= size / PAGE_SIZE && pos == old(pos) + addr
        invariant Metered() && Wrote(Bound(), old(log), log, PageChunks(all, data, present, i, k), true)
      {
        hide Wrote;
        ghost var l := log;
        if (i, k) in present {
          ok := Emit(PAGE_SIZE, Load(i, k));
        } else {
          ok := SkipPage(i, k);
        }
        WroteThen(Bound(), old(log), l, log, PageChunks(all, data, present, i, k), [PageChunk(all, data, present, i, k)], ok);
        if !ok {
          PagesPrefix(all, data, present, i, k + 1, size / PAGE_SIZE);
          WrotePart(Bound(), old(log), log, PageChunks(all, data, present, i, k + 1), PageChunks(all, data, present, i, size / PAGE_SIZE)[k + 1..]);
          return;
        }
        addr, k := addr + PAGE_SIZE, k + 1;
      }
      return true;
    }

    /** dump_skip over a page that is not there; logged as a hole. */
    method SkipPage(i: nat, k: nat) returns (ok: bool)
      requires Metered()
      modifies this`pos, this`log
      ensures Metered() && Wrote(Bound(), old(log), log, [Chunk(old(pos), PAGE_SIZE, Hole(i, k))], ok)
      ensures ok ==> pos == old(pos) + PAGE_SIZE
    {
      HoleIsFree(log, Chunk(pos, PAGE_SIZE, Hole(i, k)));
      hide Cost;
      ok := Skip(PAGE_SIZE);
      if ok { log := log + [Chunk(pos - PAGE_SIZE, PAGE_SIZE, Hole(i, k))]; }
    }

    method WriteAreas(list: seq<Vma>, gate: Option<Vma>, filesz: seq<nat>, data: nat, present: set<(nat, nat)>) returns (ok: bool)
      requires Metered() && pos == data && SizesOf(AllVmas(list, gate), filesz)
      modifies this
      ensures Metered()
      ensures var all := AllVmas(list, gate); Wrote(Bound(), old(log), log, AllPageChunks(all, data, present, |all|), ok)
      ensures ok ==> pos == ShOff(AllVmas(list, gate), data)
    {
      var all := AllVmas(list, gate);
      var i, vma := 0, FirstVma(list, gate);
      hide Cost, LoadOffset;
      WalkIsComplete(0, list, gate);
      LoadOffsetZero(all, data);
      WroteNothing(Bound(), log);
      while !vma.End?
        invariant 0 <= i <= |all| && vma == CursorAt(i, list, gate) && pos == LoadOffset(all, data, i)
        invariant Metered() && Wrote(Bound(), old(log), log, AllPageChunks(all, data, present, i), true)
        decreases |all| - i
      {
        hide Wrote, PageChunks;
        WalkIsComplete(i, list, gate);
        LoadOffsetStep(all, data, i);
        ghost var l := log;
        ok := WritePages(all, data, present, i, filesz[i]);
        WroteThen(Bound(), old(log), l, log, AllPageChunks(all, data, present, i), PageChunks(all, data, present, i, filesz[i] / PAGE_SIZE), ok);
        if !ok {
          AreasPrefix(all, data, present, i + 1);
          ghost var part := AllPageChunks(all, data, present, i + 1);
          WrotePart(Bound(), old(log), log, part, AllPageChunks(all, data, present, |all|)[|part|..]);
          return;
        }
        i, vma := i + 1, NextVma(vma, list, gate);
        if i <= |all| { WalkIsComplete(i, list, gate); }
      }
      return true;
    }

    /**
     * The whole dump.  What was emitted is the beginning of the plan, piece by piece at the planned
     * positions, and all of the plan if the dump completed.  If no write fails, it completes exactly
     * when there is an area and what the plan writes is within the limit.
     */
    method ElfCoreDump(list: seq<Vma>, gate: Option<Vma>, view: View, info: NoteInfo, present: set<(nat, nat)>)
      returns (overrun: bool, complete: bool)
      requires Metered() && pos == 0 && log == [] && InfoOk(view, info)
      requires forall i :: 0 <= i < |AllVmas(list, gate)| ==> AllVmas(list, gate)[i].dumpSize % PAGE_SIZE == 0
      modifies this
      ensures ThreadNotes(view) >= 1
      ensures overrun <==> !NoneBeyond(info.threads, ThreadNotes(view))
      ensures TypedFirst(view) ==> !overrun
      ensures var n := ThreadNotes(view);
              var plan := Plan(AllVmas(list, gate), WriteOrder(Stored(info, n), n), PlannedSize(info), present);
              !overrun ==>
                && log <= plan && (complete ==> log == plan && Cost(plan) <= limit)
                && (!flaky ==> (complete <==> AllVmas(list, gate) != [] && Cost(plan) <= limit))
      ensures AllVmas(list, gate) == [] ==> !complete
      ensures complete ==> AllPagesOnce(log, AllVmas(list, gate), present)
    {
      PlanIffReads(view, info);
      ThreadNotesPositive(view);
      if TypedFirst(view) { PlanExact(view, info); }
      hide Cost, Plan, PlannedSize, WriteOrder, NoneBeyond, TypedFirst, NotesSize, AllPagesOnce;
      var n := CountThreadNotes(view);
      var stored, noteSize;
      overrun, stored, noteSize := FillNoteInfo(info, n);
      if overrun { return true, false; }
      complete := DumpNoted(list, gate, stored, n, noteSize, present);
    }

    /** The dump once the notes are filled in. */
    method DumpNoted(list: seq<Vma>, gate: Option<Vma>, info: NoteInfo, n: nat, noteSize: nat, present: set<(nat, nat)>) returns (complete: bool)
      requires Metered() && pos == 0 && log == [] && WellFilled(info, n) && NotesSize(WriteOrder(info, n)) == noteSize
      requires forall i :: 0 <= i < |AllVmas(list, gate)| ==> AllVmas(list, gate)[i].dumpSize % PAGE_SIZE == 0
      modifies this
      ensures var plan := Plan(AllVmas(list, gate), WriteOrder(info, n), noteSize, present);
              && log <= plan && (complete ==> log == plan && Cost(plan) <= limit)
              && (!flaky ==> (complete <==> AllVmas(list, gate) != [] && Cost(plan) <= limit))
      ensures AllVmas(list, gate) == [] ==> !complete
      ensures complete ==> AllPagesOnce(log, AllVmas(list, gate), present)
    {
      ghost var all := AllVmas(list, gate);
      var filesz, total := SizePass(list, gate);
      var segs := |list| + (if gate.Some? then 1 else 0) + 1;
      var phnum := if segs > PN_XNUM then PN_XNUM else segs;
      var noteOffset := EHDR_SIZE + segs * PHDR_SIZE;
      var data := AlignUp(noteOffset + noteSize, PAGE_SIZE);
      if segs - 1 == 0 { return false; }
      assert all[..|all|] == all;
      hide Cost, Plan, WriteOrder, NotesSize, Wrote, AllPagesOnce;
      complete := EmitAll(list, gate, info, n, noteSize, filesz, segs, phnum, data, data + total, present);
      WroteWhole(Bound(), log, Plan(all, WriteOrder(info, n), noteSize, present), complete);
      if complete { PagesAreOnce(all, WriteOrder(info, n), present); }
    }

    /** The second pass. */
    method EmitAll(list: seq<Vma>, gate: Option<Vma>, info: NoteInfo, n: nat, noteSize: nat, filesz: seq<nat>,
                   segs: nat, phnum: nat, data: nat, shoff: nat, present: set<(nat, nat)>) returns (ok: bool)
      requires Metered() && pos == 0 && log == [] && WellFilled(info, n) && NotesSize(WriteOrder(info, n)) == noteSize
      requires var all := AllVmas(list, gate);
               && SizesOf(all, filesz) && segs == Segs(all) && phnum == PhNum(segs)
               && data == DataOffset(all, noteSize) && shoff == ShOff(all, data)
      modifies this
      ensures Metered() && Wrote(Bound(), [], log, Plan(AllVmas(list, gate), WriteOrder(info, n), noteSize, present), ok)
    {
      hide Cost, Wrote, HeadChunks, PhdrChunks, AllNoteChunks, AllPageChunks, TailChunks, WriteOrder, NotesSize, Plan;
      ghost var all, notes := AllVmas(list, gate), WriteOrder(info, n);
      ghost var h, ph, nt := HeadChunks(all, noteSize), PhdrChunks(all, data, |all|), AllNoteChunks(notes, NoteOffset(all));
      ghost var pg, tl := AllPageChunks(all, data, present, |all|), TailChunks(all, data);
      PlanJoin(all, notes, noteSize, present);
      ok := WriteHeaders(list, gate, filesz, phnum, if phnum == PN_XNUM then shoff else 0, segs, noteSize, data);
      if !ok {
        WrotePart(Bound(), [], log, h + ph, nt + (pg + tl));
        return;
      }
      ghost var l := log;
      ok := WriteNoteInfo(info, n);
      WroteThen(Bound(), [], l, log, h + ph, nt, ok);
      if !ok {
        WrotePart(Bound(), [], log, h + ph + nt, pg + tl);
        return;
      }
      ok := Skip(data - pos);
      if !ok {
        Interrupted([], log, h + ph + nt, pg + tl);
        return;
      }
      l := log;
      ok := WriteAreas(list, gate, filesz, data, present);
      WroteThen(Bound(), [], l, log, h + ph + nt, pg, ok);
      if !ok {
        WrotePart(Bound(), [], log, h + ph + nt + pg, tl);
        return;
      }
      l := log;
      ok := WriteTail(phnum, segs, all, data);
      WroteThen(Bound(), [], l, log, h + ph + nt + pg, tl, ok);
    }

    method WriteHeaders(list: seq<Vma>, gate: Option<Vma>, filesz: seq<nat>, phnum: nat, shoff: nat, segs: nat, noteSize: nat, data: nat)
      returns (ok: bool)
      requires Metered() && pos == 0 && log == [] && SizesOf(AllVmas(list, gate), filesz)
      requires var all := AllVmas(list, gate);
               && segs == Segs(all) && phnum == PhNum(segs) && data == DataOffset(all, noteSize)
               && shoff == if phnum == PN_XNUM then ShOff(all, data) else 0
      modifies this
      ensures Metered() && (ok ==> pos == NoteOffset(AllVmas(list, gate)))
      ensures var all := AllVmas(list, gate); Wrote(Bound(), [], log, HeadChunks(all, noteSize) + PhdrChunks(all, data, |all|), ok)
    {
      hide Cost, Wrote, HeadChunks, PhdrChunks;
      ghost var all := AllVmas(list, gate);
      ghost var h, ph := HeadChunks(all, noteSize), PhdrChunks(all, data, |all|);
      ok := WriteHead(phnum, shoff, EHDR_SIZE + segs * PHDR_SIZE, noteSize, all);
      if !ok {
        WrotePart(Bound(), [], log, h, ph);
        return;
      }
      ghost var l := log;
      ok := WritePhdrs(list, gate, filesz, data);
      WroteThen(Bound(), [], l, log, h, ph, ok);
    }

    method WriteHead(phnum: nat, shoff: nat, noteOffset: nat, noteSize: nat, ghost all: seq<Vma>) returns (ok: bool)
      requires Metered() && pos == 0 && log == [] && phnum == PhNum(Segs(all)) && noteOffset == NoteOffset(all)
      requires shoff == if phnum == PN_XNUM then ShOff(all, DataOffset(all, noteSize)) else 0
      modifies this
      ensures Metered() && Wrote(Bound(), [], log, HeadChunks(all, noteSize), ok) && (ok ==> pos == EHDR_SIZE + PHDR_SIZE)
    {
      hide Cost, Wrote;
      ghost var cs := HeadChunks(all, noteSize);
      assert cs == [cs[0]] + [cs[1]];
      ok := Emit(EHDR_SIZE, Header(phnum, shoff));
      if !ok {
        WrotePart(Bound(), [], log, [cs[0]], [cs[1]]);
        return;
      }
      ghost var l := log;
      ok := Emit(PHDR_SIZE, PhdrNote(noteOffset, noteSize));
      WroteThen(Bound(), [], l, log, [cs[0]], [cs[1]], ok);
    }

    method WriteTail(phnum: nat, segs: nat, ghost all: seq<Vma>, ghost data: nat) returns (ok: bool)
      requires Metered() && pos == ShOff(all, data) && segs == Segs(all) && phnum == PhNum(segs)
      modifies this
      ensures Metered() && Wrote(Bound(), old(log), log, TailChunks(all, data), ok)
    {
      hide Cost, Wrote;
      if phnum == PN_XNUM {
        ok := Emit(SHDR_SIZE, Shdr(segs));
      } else {
        WroteNothing(Bound(), log);
        ok := true;
      }
    }
  }

  /** The file has every page that the program headers announce exactly once, with contents exactly if it is present. */
  ghost predicate AllPagesOnce(log: seq<Chunk>, all: seq<Vma>, present: set<(nat, nat)>) {
    forall i: nat, k: nat :: Announced(all, i, k) ==> PageOnce(log, present, i, k)
  }

  lemma PagesAreOnce(all: seq<Vma>, notes: seq<Note>, present: set<(nat, nat)>)
    requires WholePages(all)
    ensures AllPagesOnce(Plan(all, notes, NotesSize(notes), present), all, present)
  {
    hide Plan, PageOnce;
    forall i: nat, k: nat | Announced(all, i, k) ensures PageOnce(Plan(all, notes, NotesSize(notes), present), present, i, k) {
      PageExactlyOnce(all, notes, present, i, k);
    }
  }

  lemma PlanJoin(all: seq<Vma>, notes: seq<Note>, noteSize: nat, present: set<(nat, nat)>)
    ensures var data := DataOffset(all, noteSize);
            var h, ph, nt := HeadChunks(all, noteSize), PhdrChunks(all, data, |all|), AllNoteChunks(notes, NoteOffset(all));
            var pg, tl := AllPageChunks(all, data, present, |all|), TailChunks(all, data);
            var plan := Plan(all, notes, noteSize, present);
            && plan == h + ph + (nt + (pg + tl)) && plan == h + ph + nt + (pg + tl) && plan == h + ph + nt + pg + tl
  {
  }

  lemma NoteParts(n: Note, pos: nat)
    ensures var cs := NoteChunks(n, pos);
            && |cs| == 3 && cs == [cs[0], cs[1]] + [cs[2]] && cs == cs + [] && cs[..2] == [cs[0]] + [cs[1]] == [cs[0], cs[1]] == cs[..2] + []
  {
  }

  /** thread_notes. */
  method CountThreadNotes(view: View) returns (n: nat)
    ensures n == ThreadNotes(view)
  {
    n := 0;
    for i := 0 to |view|
      invariant n == ThreadNotes(view[..i])
    {
      assert view[..i + 1][..i] == view[..i];
      if view[i] != 0 { n := n + 1; }
    }
    assert view[..|view|] == view;
  }

  /**
   * fill_thread_core_info: the note of every set that was read is stored at the index of the set and
   * added to the total.  `notes` has thread_notes slots; a store past them is an overrun.
   */
  method FillThread(notes: array<Option<Note>>, got: seq<Option<Note>>) returns (overrun: bool, size: nat)
    requires got != [] && got[0].Some? && 1 <= notes.Length <= |got|
    requires forall i :: 0 <= i < notes.Length ==> notes[i].None?
    modifies notes
    ensures overrun <==> !EmptyFrom(got, notes.Length)
    ensures !overrun ==> notes[..] == got[..notes.Length] && size == NotesSize(Filled(got))
  {
    hide Filled, NotesSize, NoteSize;
    notes[0] := got[0];
    size := NoteSize(got[0].value);
    NothingFilled(got);
    FilledSnoc(got, 0);
    for i := 1 to |got|
      invariant size == NotesSize(Filled(got[..i]))
      invariant forall k :: 0 <= k < notes.Length ==> notes[k] == if k < i then got[k] else None
      invariant forall k :: notes.Length <= k < i ==> got[k].None?
    {
      FilledSnoc(got, i);
      if got[i].Some? {
        if i >= notes.Length { return true, size; }
        notes[i] := got[i];
        size := size + NoteSize(got[i].value);
      }
    }
    assert got[..|got|] == got;
    return false, size;
  }

  lemma NothingFilled(got: seq<Option<Note>>)
    ensures NotesSize(Filled(got[..0])) == 0
  {
  }

  lemma FilledSnoc(got: seq<Option<Note>>, i: nat)
    requires i < |got|
    ensures NotesSize(Filled(got[..i + 1])) == NotesSize(Filled(got[..i])) + if got[i].Some? then NoteSize(got[i].value) else 0
  {
    assert got[..i + 1][..i] == got[..i];
    if got[i].Some? {
      NotesSizeConcat(Filled(got[..i]), [got[i].value]);
      OneNote(got[i].value);
    } else {
      assert Filled(got[..i]) + [] == Filled(got[..i]);
    }
  }

  /**
   * The threads and the process notes of fill_note_info: `r` is what the arrays hold, `size` the size
   * planned for all notes.
   */
  method FillNoteInfo(info: NoteInfo, n: nat) returns (overrun: bool, r: NoteInfo, size: nat)
    requires 1 <= n && forall t :: 0 <= t < |info.threads| ==> n <= |info.threads[t]| && info.threads[t][0].Some?
    ensures overrun <==> !NoneBeyond(info.threads, n)
    ensures !overrun ==> r == Stored(info, n) && size == PlannedSize(info)
  {
    size := 0;
    var filled: seq<seq<Option<Note>>>, t := [], |info.threads|;
    while t > 0
      invariant 0 <= t <= |info.threads| && size == ThreadsSize(info.threads[t..]) && |filled| == |info.threads| - t
      invariant forall k :: t <= k < |info.threads| ==> EmptyFrom(info.threads[k], n) && filled[k - t] == info.threads[k][..n]
    {
      t := t - 1;
      var notes := new Option<Note>[n](_ => None);
      var over, s := FillThread(notes, info.threads[t]);
      if over { return true, info, size; }
      assert info.threads[t..][1..] == info.threads[t + 1..];
      size, filled := size + s, [notes[..]] + filled;
    }
    assert info.threads[0..] == info.threads;
    r := info.(threads := filled);
    assert filled == Stored(info, n).threads;
    size := size + NoteSize(info.psinfo) + NoteSize(info.signote) + NoteSize(info.auxv);
    if info.files.Some? {
      OneNote(info.files.value);
      size := size + NoteSize(info.files.value);
    }
    return false, r, size;
  }

  /** The first pass over the areas: how much of each is dumped, and the sum. */
  method SizePass(list: seq<Vma>, gate: Option<Vma>) returns (filesz: seq<nat>, total: nat)
    requires forall i :: 0 <= i < |AllVmas(list, gate)| ==> AllVmas(list, gate)[i].dumpSize % PAGE_SIZE == 0
    ensures SizesOf(AllVmas(list, gate), filesz) && total == DumpSize(AllVmas(list, gate))
  {
    ghost var all := AllVmas(list, gate);
    var vma := FirstVma(list, gate);
    filesz, total := [], 0;
    WalkIsComplete(0, list, gate);
    while !vma.End?
      invariant |filesz| <= |all| && vma == CursorAt(|filesz|, list, gate) && total == DumpSize(all[..|filesz|])
      invariant forall i :: 0 <= i < |filesz| ==> filesz[i] == all[i].dumpSize
      decreases |all| - |filesz|
    {
      ghost var i := |filesz|;
      WalkIsComplete(i, list, gate);
      var size := Visited(vma, list, gate).dumpSize;
      assert all[..i + 1][..i] == all[..i];
      filesz, total, vma := filesz + [size], total + size, NextVma(vma, list, gate);
      WalkIsComplete(i + 1, list, gate);
    }
    WalkIsComplete(|filesz|, list, gate);
    assert all[..|all|] == all;
  }

  /** vma_filesz after the first pass: whole pages for each area. */
  predicate SizesOf(all: seq<Vma>, filesz: seq<nat>) {
    |filesz| == |all| && forall i :: 0 <= i < |all| ==> filesz[i] == all[i].dumpSize && filesz[i] % PAGE_SIZE == 0
  }

  lemma {:induction false} PhdrsPrefix(vmas: seq<Vma>, data: nat, i: nat)
    requires i <= |vmas|
    ensures |PhdrChunks(vmas, data, i)| == i <= |PhdrChunks(vmas, data, |vmas|)|
    ensures PhdrChunks(vmas, data, |vmas|) == PhdrChunks(vmas, data, i) + PhdrChunks(vmas, data, |vmas|)[i..]
    decreases |vmas| - i
  {
    PhdrsListed(vmas, data, i);
    PhdrsListed(vmas, data, |vmas|);
    if i < |vmas| { PhdrsPrefix(vmas, data, i + 1); }
  }

  lemma {:induction false} PagesPrefix(vmas: seq<Vma>, data: nat, present: set<(nat, nat)>, i: nat, k: nat, n: nat)
    requires i < |vmas| && k <= n
    ensures |PageChunks(vmas, data, present, i, k)| == k <= |PageChunks(vmas, data, present, i, n)|
    ensures PageChunks(vmas, data, present, i, n) == PageChunks(vmas, data, present, i, k) + PageChunks(vmas, data, present, i, n)[k..]
    decreases n - k
  {
    PagesListed(vmas, data, present, i, k);
    PagesListed(vmas, data, present, i, n);
    if k < n { PagesPrefix(vmas, data, present, i, k + 1, n); }
  }

  lemma {:induction false} AreasPrefix(vmas: seq<Vma>, data: nat, present: set<(nat, nat)>, i: nat)
    requires i <= |vmas|
    ensures var a, b := AllPageChunks(vmas, data, present, i), AllPageChunks(vmas, data, present, |vmas|);
            |a| <= |b| && b == a + b[|a|..]
    decreases |vmas| - i
  {
    if i < |vmas| { AreasPrefix(vmas, data, present, i + 1); }
  }

  predicate WellFilled(info: NoteInfo, n: nat) {
    && 1 <= n && info.threads != []
    && forall t :: 0 <= t < |info.threads| ==> n <= |info.threads[t]| && info.threads[t][0].Some?
  }

  /** The notes of the first `t` threads and of the process. */
  function OrderTo(info: NoteInfo, n: nat, t: nat): seq<Note>
    requires WellFilled(info, n) && 1 <= t <= |info.threads|
  {
    [info.threads[0][0].value, info.psinfo, info.signote, info.auxv] + FilesNote(info)
    + Filled(info.threads[0][1..n]) + RestOrder(info.threads[1..t], n)
  }

  /** The notes of the process, and then the other slots of the first thread. */
  lemma FirstOrder(info: NoteInfo, n: nat)
    requires WellFilled(info, n) && OrderTo(info, n, 1) <= WriteOrder(info, n)
    ensures var target, k := WriteOrder(info, n), 4 + |FilesNote(info)|;
            && k <= |target| && target[0] == info.threads[0][0].value && target[1] == info.psinfo
            && target[2] == info.signote && target[3] == info.auxv && (info.files.Some? ==> target[4] == info.files.value)
            && target[..k] + Filled(info.threads[0][1..n]) == OrderTo(info, n, 1)
  {
    hide Filled, RestOrder;
    var target, k := WriteOrder(info, n), 4 + |FilesNote(info)|;
    assert info.threads[1..1] == [];
    assert RestOrder([], n) == [] by { NoThreads(n); }
    assert target[..k] == [info.threads[0][0].value, info.psinfo, info.signote, info.auxv] + FilesNote(info);
  }

  lemma NoThreads(n: nat)
    ensures RestOrder([], n) == []
  {
  }

  lemma NextOf(target: seq<Note>, k: nat)
    requires k < |target|
    ensures target[..k] + [target[k]] == target[..k + 1] <= target && (k == 0 ==> target[..k] == [])
  {
  }

  lemma {:induction false} RestSplit(threads: seq<seq<Option<Note>>>, n: nat, k: nat)
    requires k <= |threads| && forall t :: 0 <= t < |threads| ==> n <= |threads[t]|
    ensures RestOrder(threads, n) == RestOrder(threads[..k], n) + RestOrder(threads[k..], n)
    decreases k
  {
    if k > 0 {
      RestSplit(threads[1..], n, k - 1);
      assert threads[..k][1..] == threads[1..][..k - 1] && threads[k..] == threads[1..][k - 1..] && threads[..k][0] == threads[0];
    } else {
      assert threads[..0] == [] && threads[0..] == threads;
    }
  }

  lemma OrderWhole(info: NoteInfo, n: nat)
    requires WellFilled(info, n)
    ensures OrderTo(info, n, 1) <= WriteOrder(info, n) && OrderTo(info, n, |info.threads|) == WriteOrder(info, n)
  {
    assert info.threads[1..|info.threads|] == info.threads[1..] && info.threads[1..1] == [];
  }

  lemma RestStep(threads: seq<seq<Option<Note>>>, n: nat, k: nat)
    requires 1 <= n && k < |threads| && forall t :: 0 <= t < |threads| ==> n <= |threads[t]| && threads[t][0].Some?
    ensures RestOrder(threads[..k + 1], n) == RestOrder(threads[..k], n) + ([threads[k][0].value] + Filled(threads[k][1..n]))
    ensures RestOrder(threads[..k + 1], n) <= RestOrder(threads, n)
  {
    var some, slots := threads[..k + 1], threads[k];
    RestSplit(threads, n, k + 1);
    RestSplit(some, n, k);
    assert some[..k] == threads[..k] && some[k..] == [slots];
    RestOfOne(slots, n);
    assert slots[..n] == slots[..1] + slots[1..n];
    FilledConcat(slots[..1], slots[1..n]);
    assert Filled(slots[..1]) == [slots[0].value];
  }

  /** Thread t adds its first note and its other slots. */
  lemma OrderStep(info: NoteInfo, n: nat, t: nat)
    requires WellFilled(info, n) && 1 <= t < |info.threads|
    ensures var a := info.threads[t][0].value;
            var next := OrderTo(info, n, t) + [a] + Filled(info.threads[t][1..n]);
            OrderTo(info, n, t + 1) == next && next <= WriteOrder(info, n) && OrderTo(info, n, t) + [a] <= WriteOrder(info, n)
  {
    hide Filled, RestOrder, FilesNote;
    var rest := info.threads[1..];
    assert info.threads[1..t + 1] == rest[..t] && info.threads[1..t] == rest[..t - 1];
    RestStep(rest, n, t - 1);
    var base := [info.threads[0][0].value, info.psinfo, info.signote, info.auxv] + FilesNote(info) + Filled(info.threads[0][1..n]);
    var r, a, b := RestOrder(rest[..t - 1], n), [info.threads[t][0].value], Filled(info.threads[t][1..n]);
    assert base + (r + (a + b)) == base + r + a + b;
    assert base + r + a <= base + r + a + b;
  }

  lemma RestOfOne(slots: seq<Option<Note>>, n: nat)
    requires n <= |slots|
    ensures RestOrder([slots], n) == Filled(slots[..n])
  {
  }

  lemma FilledStep(slots: seq<Option<Note>>, i: nat, n: nat, base: seq<Note>)
    requires 1 <= i < n <= |slots|
    ensures slots[i].None? ==> Filled(slots[1..i + 1]) == Filled(slots[1..i])
    ensures base + Filled(slots[1..i + 1]) <= base + Filled(slots[1..n])
    ensures slots[i].Some? ==> base + Filled(slots[1..i + 1]) == base + Filled(slots[1..i]) + [slots[i].value]
  {
    var s := slots[1..i + 1];
    assert s[..|s| - 1] == slots[1..i];
    assert slots[1..n] == s + slots[i + 1..n];
    FilledConcat(s, slots[i + 1..n]);
  }

  lemma {:induction false} NotesPrefix(ns: seq<Note>, i: nat, pos: nat)
    requires i <= |ns|
    ensures AllNoteChunks(ns, pos) == AllNoteChunks(ns[..i], pos) + AllNoteChunks(ns[i..], pos + NotesSize(ns[..i]))
    ensures NotesSize(ns) == NotesSize(ns[..i]) + NotesSize(ns[i..])
    decreases i
  {
    hide NoteChunks, NoteSize;
    if i > 0 {
      NotesPrefix(ns[1..], i - 1, pos + NoteSize(ns[0]));
      assert ns[..i][1..] == ns[1..][..i - 1] && ns[i..] == ns[1..][i - 1..] && ns[..i][0] == ns[0];
    } else {
      assert ns[..0] == [] && ns[0..] == ns;
    }
  }

  lemma NotesSnoc(ns: seq<Note>, i: nat, pos: nat)
    requires i < |ns|
    ensures AllNoteChunks(ns[..i + 1], pos) == AllNoteChunks(ns[..i], pos) + NoteChunks(ns[i], pos + NotesSize(ns[..i]))
    ensures NotesSize(ns[..i + 1]) == NotesSize(ns[..i]) + NoteSize(ns[i])
  {
    NotesPrefix(ns[..i + 1], i, pos);
    assert ns[..i + 1][..i] == ns[..i] && ns[..i + 1][i..] == [ns[i]];
    OneNote(ns[i]);
    assert [ns[i]][1..] == [];
  }
}
