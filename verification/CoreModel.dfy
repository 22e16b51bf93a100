/**
 * The layout of an ELF core file (System V gABI chapter 4, ELF Header, and chapter 5, Program Header
 * and Note Section) as planned by elf_core_dump in fs/binfmt_elf.c before anything is written.
 */
module CoreModel {
  import opened Common

  const EHDR_SIZE: nat := 64
  const PHDR_SIZE: nat := 56
  const SHDR_SIZE: nat := 64
  const NHDR_SIZE: nat := 12
  const PN_XNUM: nat := 0xffff

  datatype Note = Note(name: string, noteType: nat, size: nat)

  /** One area to dump: how much of it vma_dump_size decided to write. */
  datatype Vma = Vma(start: nat, end: nat, dumpSize: nat)

  /** What is emitted.  Load(i, k) and Hole(i, k) are page k of area i, present or not. */
  datatype Item =
    | Header(phnum: nat, shoff: nat)
    | PhdrNote(offset: nat, filesz: nat)
    | PhdrLoad(i: nat, offset: nat, filesz: nat)
    | NoteHead(note: Note)
    | NoteName(note: Note)
    | NoteData(note: Note)
    | Load(i: nat, k: nat)
    | Hole(i: nat, k: nat)
    | Shdr(info: nat)

  datatype Chunk = Chunk(pos: nat, size: nat, item: Item)

  function NoteSize(n: Note): (r: nat)
    ensures r >= NHDR_SIZE
  {
    NHDR_SIZE + AlignUp(|n.name| + 1, 4) + AlignUp(n.size, 4)
  }

  function NotesSize(ns: seq<Note>): nat {
    if ns == [] then 0 else NoteSize(ns[0]) + NotesSize(ns[1..])
  }

  // ---- the notes of a process ----

  /**
   * What fill_note_info finds.  For each thread, `threads` has what reading each register set gave:
   * set 0 is NT_PRSTATUS and always read, another set is read if it has a note type and is active.
   * fill_thread_core_info stores the note of set i at notes[i], but a thread is allocated thread_notes
   * notes only.
   */
  datatype NoteInfo = NoteInfo(threads: seq<seq<Option<Note>>>, psinfo: Note, signote: Note, auxv: Note, files: Option<Note>)

  /** The register sets: their core_note_type, 0 for none. */
  type View = seq<nat>

  /** thread_notes: how many register sets have a note type. */
  function ThreadNotes(view: View): (n: nat)
    ensures n <= |view|
  {
    if view == [] then 0
    else ThreadNotes(view[..|view| - 1]) + if view[|view| - 1] != 0 then 1 else 0
  }

  /** What the register sets of a thread may give under a view. */
  predicate SlotsOk(view: View, slots: seq<Option<Note>>) {
    && |slots| == |view| && slots != [] && slots[0].Some?
    && forall i :: 0 <= i < |slots| && slots[i].Some? ==> view[i] != 0
  }

  predicate InfoOk(view: View, info: NoteInfo) {
    && view != [] && view[0] != 0
    && info.threads != [] && forall t :: 0 <= t < |info.threads| ==> SlotsOk(view, info.threads[t])
  }

  function Filled(slots: seq<Option<Note>>): seq<Note> {
    if slots == [] then []
    else Filled(slots[..|slots| - 1]) + if slots[|slots| - 1].Some? then [slots[|slots| - 1].value] else []
  }

  /** How many of the first `i` slots are filled. */
  function FilledBefore(slots: seq<Option<Note>>, i: nat): nat
    requires i <= |slots|
  {
    if i == 0 then 0 else FilledBefore(slots, i - 1) + if slots[i - 1].Some? then 1 else 0
  }

  lemma {:induction false} FilledBeforePrefix(slots: seq<Option<Note>>, n: nat, i: nat)
    requires i <= n <= |slots|
    ensures FilledBefore(slots[..n], i) == FilledBefore(slots, i)
    decreases i
  {
    if i > 0 { FilledBeforePrefix(slots, n, i - 1); }
  }

  /** Every filled slot gives its note, in the order of the slots; there are no others. */
  lemma {:induction false} FilledExactly(slots: seq<Option<Note>>, i: nat)
    requires i < |slots|
    ensures |Filled(slots)| == FilledBefore(slots, |slots|)
    ensures slots[i].Some? ==> FilledBefore(slots, i) < |Filled(slots)| && Filled(slots)[FilledBefore(slots, i)] == slots[i].value
    decreases |slots|
  {
    var n := |slots| - 1;
    if n > 0 {
      FilledExactly(slots[..n], if i < n then i else 0);
    } else {
      assert slots[..0] == [];
    }
    FilledBeforePrefix(slots, n, n);
    FilledBeforePrefix(slots, n, Min(i, n));
  }

  function FilesNote(info: NoteInfo): seq<Note> { if info.files.Some? then [info.files.value] else [] }

  /** What fill_note_info adds up: every filled slot of every thread, and the notes of the process. */
  function ThreadsSize(threads: seq<seq<Option<Note>>>): nat {
    if threads == [] then 0 else NotesSize(Filled(threads[0])) + ThreadsSize(threads[1..])
  }

  function PlannedSize(info: NoteInfo): nat {
    ThreadsSize(info.threads) + NoteSize(info.psinfo) + NoteSize(info.signote) + NoteSize(info.auxv) + NotesSize(FilesNote(info))
  }

  /** What write_note_info writes for the threads after the first: the first `n` slots. */
  function RestOrder(threads: seq<seq<Option<Note>>>, n: nat): seq<Note>
    requires forall t :: 0 <= t < |threads| ==> n <= |threads[t]|
  {
    if threads == [] then [] else Filled(threads[0][..n]) + RestOrder(threads[1..], n)
  }

  /** The notes in the order they are written: those of the process follow the first of the first thread. */
  function WriteOrder(info: NoteInfo, n: nat): seq<Note>
    requires 1 <= n && info.threads != []
    requires forall t :: 0 <= t < |info.threads| ==> n <= |info.threads[t]|
    requires info.threads[0][0].Some?
  {
    [info.threads[0][0].value, info.psinfo, info.signote, info.auxv] + FilesNote(info)
    + Filled(info.threads[0][1..n]) + RestOrder(info.threads[1..], n)
  }

  lemma {:induction false} NotesSizeConcat(a: seq<Note>, b: seq<Note>)
    ensures NotesSize(a + b) == NotesSize(a) + NotesSize(b)
    decreases |a|
  {
    if a == [] {
      assert a + b == b;
    } else {
      assert (a + b)[1..] == a[1..] + b;
      NotesSizeConcat(a[1..], b);
    }
  }

  lemma {:induction false} FilledConcat(a: seq<Option<Note>>, b: seq<Option<Note>>)
    ensures Filled(a + b) == Filled(a) + Filled(b)
    decreases |b|
  {
    if b == [] {
      assert a + b == a;
    } else {
      assert (a + b)[..|a + b| - 1] == a + b[..|b| - 1];
      FilledConcat(a, b[..|b| - 1]);
    }
  }

  /** No slot from index `n` on is filled. */
  predicate EmptyFrom(slots: seq<Option<Note>>, n: nat) {
    forall i :: n <= i < |slots| ==> slots[i].None?
  }

  predicate NoneBeyond(threads: seq<seq<Option<Note>>>, n: nat) {
    forall t :: 0 <= t < |threads| ==> EmptyFrom(threads[t], n)
  }

  lemma EmptySnoc(slots: seq<Option<Note>>)
    requires slots != []
    ensures EmptyFrom(slots, 0) <==> EmptyFrom(slots[..|slots| - 1], 0) && slots[|slots| - 1].None?
  {
  }

  lemma OneNote(a: Note)
    ensures NotesSize([a]) == NoteSize(a)
  {
  }

  lemma {:induction false} FilledNothing(slots: seq<Option<Note>>)
    ensures NotesSize(Filled(slots)) == 0 <==> EmptyFrom(slots, 0)
    decreases |slots|
  {
    if slots != [] {
      var k := |slots| - 1;
      FilledNothing(slots[..k]);
      EmptySnoc(slots);
      if slots[k].Some? {
        NotesSizeConcat(Filled(slots[..k]), [slots[k].value]);
        OneNote(slots[k].value);
      }
    }
  }

  /** The first `n` slots take all the room of a thread exactly if no other slot is filled. */
  lemma SlotsWritten(slots: seq<Option<Note>>, n: nat)
    requires n <= |slots|
    ensures NotesSize(Filled(slots[..n])) <= NotesSize(Filled(slots))
    ensures NotesSize(Filled(slots[..n])) == NotesSize(Filled(slots)) <==> EmptyFrom(slots, n)
  {
    hide NoteSize, NotesSize;
    var rest := slots[n..];
    assert slots == slots[..n] + rest;
    FilledConcat(slots[..n], rest);
    NotesSizeConcat(Filled(slots[..n]), Filled(rest));
    FilledNothing(rest);
    assert EmptyFrom(rest, 0) <==> EmptyFrom(slots, n) by {
      assert forall i :: n <= i < |slots| ==> slots[i] == rest[i - n];
      assert forall i :: 0 <= i < |rest| ==> rest[i] == slots[n + i];
    }
  }

  lemma NoneBeyondStep(threads: seq<seq<Option<Note>>>, n: nat)
    requires threads != []
    ensures NoneBeyond(threads, n) <==> EmptyFrom(threads[0], n) && NoneBeyond(threads[1..], n)
  {
  }

  lemma {:induction false} ThreadsWritten(threads: seq<seq<Option<Note>>>, n: nat)
    requires forall t :: 0 <= t < |threads| ==> n <= |threads[t]|
    ensures NotesSize(RestOrder(threads, n)) <= ThreadsSize(threads)
    ensures NotesSize(RestOrder(threads, n)) == ThreadsSize(threads) <==> NoneBeyond(threads, n)
    decreases |threads|
  {
    if threads != [] {
      NotesSizeConcat(Filled(threads[0][..n]), RestOrder(threads[1..], n));
      SlotsWritten(threads[0], n);
      ThreadsWritten(threads[1..], n);
      NoneBeyondStep(threads, n);
    }
  }

  lemma {:induction false} ThreadNotesPositive(view: View)
    requires view != [] && view[0] != 0
    ensures ThreadNotes(view) >= 1
    decreases |view|
  {
    if |view| > 1 { ThreadNotesPositive(view[..|view| - 1]); }
  }

  /** The planned note size is what is written exactly if no set at or above thread_notes was read. */
  lemma PlanByReads(view: View, info: NoteInfo)
    requires InfoOk(view, info)
    ensures ThreadNotes(view) >= 1
    ensures NotesSize(WriteOrder(info, ThreadNotes(view))) == PlannedSize(info) <==> NoneBeyond(info.threads, ThreadNotes(view))
  {
    hide NoteSize, NoneBeyond, Filled, RestOrder, NotesSize;
    ThreadNotesPositive(view);
    var n := ThreadNotes(view);
    FirstThreadSize(info, n);
    SlotsWritten(info.threads[0], n);
    ThreadsWritten(info.threads[1..], n);
    NoneBeyondStep(info.threads, n);
  }

  /** The notes of the process, those of the first thread, and the rest. */
  lemma FirstThreadSize(info: NoteInfo, n: nat)
    requires 1 <= n && info.threads != [] && info.threads[0] != [] && info.threads[0][0].Some?
    requires forall t :: 0 <= t < |info.threads| ==> n <= |info.threads[t]|
    ensures NotesSize(WriteOrder(info, n)) ==
              NoteSize(info.psinfo) + NoteSize(info.signote) + NoteSize(info.auxv) + NotesSize(FilesNote(info))
              + NotesSize(Filled(info.threads[0][..n])) + NotesSize(RestOrder(info.threads[1..], n))
  {
    hide NoteSize, RestOrder, NotesSize, FilesNote;
    var first := info.threads[0];
    var head := [first[0].value, info.psinfo, info.signote, info.auxv];
    HeadSize(head[0], head[1], head[2], head[3]);
    NotesSizeConcat(head, FilesNote(info));
    NotesSizeConcat(head + FilesNote(info), Filled(first[1..n]));
    NotesSizeConcat(head + FilesNote(info) + Filled(first[1..n]), RestOrder(info.threads[1..], n));
    FirstSlot(first, n);
    NotesSizeConcat([first[0].value], Filled(first[1..n]));
    OneNote(first[0].value);
  }

  lemma FirstSlot(slots: seq<Option<Note>>, n: nat)
    requires 1 <= n <= |slots| && slots[0].Some?
    ensures Filled(slots[..n]) == [slots[0].value] + Filled(slots[1..n])
  {
    assert slots[..n] == slots[..1] + slots[1..n];
    FilledConcat(slots[..1], slots[1..n]);
    assert Filled(slots[..1]) == [slots[0].value];
  }

  lemma {:induction false} EmptyFilled(slots: seq<Option<Note>>)
    requires EmptyFrom(slots, 0)
    ensures Filled(slots) == []
    decreases |slots|
  {
    if slots != [] {
      EmptySnoc(slots);
      EmptyFilled(slots[..|slots| - 1]);
    }
  }

  lemma AllSlots(slots: seq<Option<Note>>, n: nat)
    requires n <= |slots| && EmptyFrom(slots, n)
    ensures Filled(slots[..n]) == Filled(slots)
  {
    assert slots == slots[..n] + slots[n..];
    FilledConcat(slots[..n], slots[n..]);
    assert forall i :: 0 <= i < |slots[n..]| ==> slots[n..][i] == slots[n + i];
    EmptyFilled(slots[n..]);
  }

  /** Every note that was read for some thread. */
  function ThreadBag(threads: seq<seq<Option<Note>>>): multiset<Note> {
    if threads == [] then multiset{} else multiset(Filled(threads[0])) + ThreadBag(threads[1..])
  }

  lemma BagStep(threads: seq<seq<Option<Note>>>)
    requires threads != []
    ensures ThreadBag(threads) == multiset(Filled(threads[0])) + ThreadBag(threads[1..])
  {
  }

  lemma {:induction false} RestBag(threads: seq<seq<Option<Note>>>, n: nat)
    requires (forall t :: 0 <= t < |threads| ==> n <= |threads[t]|) && NoneBeyond(threads, n)
    ensures multiset(RestOrder(threads, n)) == ThreadBag(threads)
    decreases |threads|
  {
    if threads != [] {
      NoneBeyondStep(threads, n);
      AllSlots(threads[0], n);
      RestBag(threads[1..], n);
    }
  }

  function ProcessNotes(info: NoteInfo): seq<Note> { [info.psinfo, info.signote, info.auxv] + FilesNote(info) }

  lemma OrderIs(info: NoteInfo, n: nat)
    requires 1 <= n && info.threads != [] && info.threads[0] != [] && info.threads[0][0].Some?
    requires forall t :: 0 <= t < |info.threads| ==> n <= |info.threads[t]|
    ensures WriteOrder(info, n) ==
              [info.threads[0][0].value] + ProcessNotes(info) + Filled(info.threads[0][1..n]) + RestOrder(info.threads[1..], n)
  {
    hide Filled, RestOrder, FilesNote;
    assert [info.threads[0][0].value, info.psinfo, info.signote, info.auxv] + FilesNote(info)
           == [info.threads[0][0].value] + ProcessNotes(info);
  }

  lemma BagOfConcat<T>(a: seq<T>, b: seq<T>)
    ensures multiset(a + b) == multiset(a) + multiset(b)
  {
  }

  lemma Rearranged<T>(a: multiset<T>, p: multiset<T>, s: multiset<T>, r: multiset<T>)
    ensures a + p + s + r == a + s + r + p
  {
  }

  lemma Interleaved<T>(a: seq<T>, p: seq<T>, s: seq<T>, r: seq<T>)
    ensures multiset(a + p + s + r) == multiset(a + s) + multiset(r) + multiset(p)
  {
    BagOfConcat(a + p + s, r);
    BagOfConcat(a + p, s);
    BagOfConcat(a, p);
    BagOfConcat(a, s);
    Rearranged(multiset(a), multiset(p), multiset(s), multiset(r));
  }

  /** Whatever was read is written exactly once, unless it was stored past the end. */
  lemma AllNotesWritten(view: View, info: NoteInfo)
    requires InfoOk(view, info) && NoneBeyond(info.threads, ThreadNotes(view))
    ensures ThreadNotes(view) >= 1
    ensures multiset(WriteOrder(info, ThreadNotes(view))) == ThreadBag(info.threads) + multiset(ProcessNotes(info))
  {
    ThreadNotesPositive(view);
    var n, first := ThreadNotes(view), info.threads[0];
    NoneBeyondStep(info.threads, n);
    AllSlots(first, n);
    FirstSlot(first, n);
    RestBag(info.threads[1..], n);
    OrderIs(info, n);
    BagStep(info.threads);
    hide *;
    Interleaved([first[0].value], ProcessNotes(info), Filled(first[1..n]), RestOrder(info.threads[1..], n));
  }

  lemma HeadSize(a: Note, b: Note, c: Note, d: Note)
    ensures NotesSize([a, b, c, d]) == NoteSize(a) + NoteSize(b) + NoteSize(c) + NoteSize(d)
  {
    OneNote(d);
    assert [c, d][1..] == [d];
    assert NotesSize([c, d]) == NoteSize(c) + NoteSize(d);
    assert [b, c, d][1..] == [c, d];
    assert NotesSize([b, c, d]) == NoteSize(b) + NotesSize([c, d]);
    assert [a, b, c, d][1..] == [b, c, d];
  }

  /** The register sets with a note type come first. */
  predicate TypedFirst(view: View) { forall i, j :: 0 <= i < j < |view| && view[j] != 0 ==> view[i] != 0 }

  lemma {:induction false} TypedFirstCount(view: View)
    requires TypedFirst(view)
    ensures forall i :: ThreadNotes(view) <= i < |view| ==> view[i] == 0
    ensures forall i :: 0 <= i < ThreadNotes(view) ==> view[i] != 0
    decreases |view|
  {
    if view != [] {
      var k := |view| - 1;
      assert forall i :: 0 <= i < k ==> view[..k][i] == view[i];
      TypedFirstCount(view[..k]);
    }
  }

  /** Every note of a thread is stored inside its array. */
  predicate StoresFit(view: View, got: seq<Option<Note>>) { EmptyFrom(got, ThreadNotes(view)) }

  /** The notes that thread_notes slots per thread can hold, and write_note_info writes. */
  function Stored(info: NoteInfo, n: nat): NoteInfo
    requires forall t :: 0 <= t < |info.threads| ==> n <= |info.threads[t]|
  {
    info.(threads := seq(|info.threads|, t requires 0 <= t < |info.threads| => info.threads[t][..n]))
  }

  lemma {:induction false} StoredRest(threads: seq<seq<Option<Note>>>, cut: seq<seq<Option<Note>>>, n: nat)
    requires |cut| == |threads| && forall t :: 0 <= t < |threads| ==> n <= |threads[t]| && cut[t] == threads[t][..n]
    ensures RestOrder(cut, n) == RestOrder(threads, n)
    decreases |threads|
  {
    if threads != [] {
      assert cut[0][..n] == threads[0][..n];
      StoredRest(threads[1..], cut[1..], n);
    }
  }

  lemma StoredOrder(view: View, info: NoteInfo)
    requires InfoOk(view, info)
    ensures ThreadNotes(view) >= 1
    ensures var n := ThreadNotes(view); WriteOrder(Stored(info, n), n) == WriteOrder(info, n)
  {
    ThreadNotesPositive(view);
    var n := ThreadNotes(view);
    var cut := Stored(info, n);
    assert cut.threads[0][1..n] == info.threads[0][1..n];
    StoredRest(info.threads[1..], cut.threads[1..], n);
  }

  /** The size planned for the notes is the size of the notes that are written. */
  ghost predicate PlanHolds(view: View, info: NoteInfo)
    requires InfoOk(view, info)
  {
    var n := ThreadNotes(view);
    n >= 1 && NotesSize(WriteOrder(Stored(info, n), n)) == PlannedSize(info)
  }

  lemma PlanIffReads(view: View, info: NoteInfo)
    requires InfoOk(view, info)
    ensures PlanHolds(view, info) <==> NoneBeyond(info.threads, ThreadNotes(view))
  {
    PlanByReads(view, info);
    StoredOrder(view, info);
  }

  /** With nothing typed from index m on there are at most m typed sets, and m only if all below are typed. */
  lemma {:induction false} CountBelow(view: View, m: nat)
    requires m <= |view| && forall k :: m <= k < |view| ==> view[k] == 0
    ensures ThreadNotes(view) <= m && (ThreadNotes(view) == m ==> forall k :: 0 <= k < m ==> view[k] != 0)
    decreases |view|
  {
    if view != [] {
      var l := |view| - 1;
      CountBelow(view[..l], Min(m, l));
    }
  }

  /** Every set that has a note type is read. */
  function AllRead(view: View, note: Note): (r: seq<Option<Note>>)
    ensures |r| == |view| && forall i :: 0 <= i < |view| ==> r[i] == if view[i] != 0 then Some(note) else None
  {
    seq(|view|, i requires 0 <= i < |view| => if view[i] != 0 then Some(note) else None)
  }

  /** A view that is not typed first has a typed set at or above thread_notes. */
  lemma TypedBeyond(view: View, note: Note)
    requires view != [] && view[0] != 0 && !TypedFirst(view)
    ensures SlotsOk(view, AllRead(view, note)) && !StoresFit(view, AllRead(view, note))
  {
    var n := ThreadNotes(view);
    if forall k :: n <= k < |view| ==> view[k] == 0 {
      CountBelow(view, n);
    }
  }

  /** No thread's notes are stored past their array, whatever is read, exactly if the typed sets come first. */
  lemma StoresFitExactly(view: View)
    requires view != [] && view[0] != 0
    ensures (forall got :: SlotsOk(view, got) ==> StoresFit(view, got)) <==> TypedFirst(view)
  {
    if TypedFirst(view) {
      TypedFirstCount(view);
    } else {
      TypedBeyond(view, Note("", 0, 0));
    }
  }

  /** The plan holds for every process under a view exactly if the typed sets come first. */
  lemma PlanExactly(view: View)
    requires view != [] && view[0] != 0
    ensures (forall info :: InfoOk(view, info) ==> PlanHolds(view, info)) <==> TypedFirst(view)
  {
    if TypedFirst(view) {
      forall info | InfoOk(view, info) ensures PlanHolds(view, info) { PlanExact(view, info); }
    } else {
      var note := Note("", 0, 0);
      var info := NoteInfo([AllRead(view, note)], note, note, note, None);
      TypedBeyond(view, note);
      PlanIffReads(view, info);
      assert !EmptyFrom(info.threads[0], ThreadNotes(view));
      assert InfoOk(view, info) && !PlanHolds(view, info);
    }
  }

  lemma PlanExact(view: View, info: NoteInfo)
    requires InfoOk(view, info) && TypedFirst(view)
    ensures PlanHolds(view, info) && NoneBeyond(info.threads, ThreadNotes(view))
  {
    PlanIffReads(view, info);
    TypedFirstCount(view);
    forall t | 0 <= t < |info.threads| ensures EmptyFrom(info.threads[t], ThreadNotes(view)) {
      assert SlotsOk(view, info.threads[t]);
    }
  }

  /** A typed set behind an untyped one: two slots are allocated, and a note is stored at index 2. */
  lemma StoredPastTheEnd(note: Note)
    ensures var view, got := [1, 0, 2], [Some(note), None, Some(note)];
            && SlotsOk(view, got) && ThreadNotes(view) == 2 && got[2].Some?
            && !StoresFit(view, got) && !TypedFirst(view)
  {
    var view, got := [1, 0, 2], [Some(note), None, Some(note)];
    assert view[..2] == [1, 0] && view[..2][..1] == [1] && [1][..0] == [];
    assert ThreadNotes([1]) == 1 && ThreadNotes([1, 0]) == 1;
    assert got[2].Some?;
    assert view[2] != 0 && view[1] == 0;
  }

  // ---- the plan of the file ----

  /** The number of program headers: one for each area and one for the notes. */
  function Segs(vmas: seq<Vma>): nat { |vmas| + 1 }

  function PhNum(segs: nat): nat { if segs > PN_XNUM then PN_XNUM else segs }

  function NoteOffset(vmas: seq<Vma>): (r: nat)
    ensures r % 4 == 0
  {
    MultipleOf(16 + 14 * Segs(vmas), 4);
    EHDR_SIZE + Segs(vmas) * PHDR_SIZE
  }

  function DataOffset(vmas: seq<Vma>, noteSize: nat): nat { AlignUp(NoteOffset(vmas) + noteSize, PAGE_SIZE) }

  function DumpSize(vmas: seq<Vma>): nat {
    if vmas == [] then 0 else DumpSize(vmas[..|vmas| - 1]) + vmas[|vmas| - 1].dumpSize
  }

  /** p_offset of area i: the data offset plus what the areas before it take. */
  function LoadOffset(vmas: seq<Vma>, data: nat, i: nat): nat
    requires i <= |vmas|
  {
    data + DumpSize(vmas[..i])
  }

  /** e_shoff: the end of the data. */
  function ShOff(vmas: seq<Vma>, data: nat): nat { LoadOffset(vmas, data, |vmas|) }

  function PhdrChunk(vmas: seq<Vma>, data: nat, i: nat): Chunk
    requires i < |vmas|
  {
    Chunk(EHDR_SIZE + PHDR_SIZE * (i + 1), PHDR_SIZE, PhdrLoad(i, LoadOffset(vmas, data, i), vmas[i].dumpSize))
  }

  /** The program headers of the first `n` areas. */
  function PhdrChunks(vmas: seq<Vma>, data: nat, n: nat): seq<Chunk>
    requires n <= |vmas|
  {
    if n == 0 then [] else PhdrChunks(vmas, data, n - 1) + [PhdrChunk(vmas, data, n - 1)]
  }

  function NoteChunks(n: Note, pos: nat): seq<Chunk> {
    [Chunk(pos, NHDR_SIZE, NoteHead(n)),
     Chunk(pos + NHDR_SIZE, |n.name| + 1, NoteName(n)),
     Chunk(pos + NHDR_SIZE + AlignUp(|n.name| + 1, 4), n.size, NoteData(n))]
  }

  /** The notes, one after the other. */
  function AllNoteChunks(ns: seq<Note>, pos: nat): seq<Chunk> {
    if ns == [] then [] else NoteChunks(ns[0], pos) + AllNoteChunks(ns[1..], pos + NoteSize(ns[0]))
  }

  /** Page k of area i, where its program header says. */
  function PageChunk(vmas: seq<Vma>, data: nat, present: set<(nat, nat)>, i: nat, k: nat): Chunk
    requires i < |vmas|
  {
    Chunk(LoadOffset(vmas, data, i) + k * PAGE_SIZE, PAGE_SIZE, if (i, k) in present then Load(i, k) else Hole(i, k))
  }

  function PageChunks(vmas: seq<Vma>, data: nat, present: set<(nat, nat)>, i: nat, n: nat): seq<Chunk>
    requires i < |vmas|
  {
    if n == 0 then [] else PageChunks(vmas, data, present, i, n - 1) + [PageChunk(vmas, data, present, i, n - 1)]
  }

  /** The pages of the first `n` areas. */
  function AllPageChunks(vmas: seq<Vma>, data: nat, present: set<(nat, nat)>, n: nat): seq<Chunk>
    requires n <= |vmas|
  {
    if n == 0 then []
    else AllPageChunks(vmas, data, present, n - 1) + PageChunks(vmas, data, present, n - 1, vmas[n - 1].dumpSize / PAGE_SIZE)
  }

  function HeadChunks(vmas: seq<Vma>, noteSize: nat): seq<Chunk> {
    [Chunk(0, EHDR_SIZE, Header(PhNum(Segs(vmas)), if PhNum(Segs(vmas)) == PN_XNUM then ShOff(vmas, DataOffset(vmas, noteSize)) else 0)),
     Chunk(EHDR_SIZE, PHDR_SIZE, PhdrNote(NoteOffset(vmas), noteSize))]
  }

  function TailChunks(vmas: seq<Vma>, data: nat): seq<Chunk> {
    if PhNum(Segs(vmas)) == PN_XNUM then [Chunk(ShOff(vmas, data), SHDR_SIZE, Shdr(Segs(vmas)))] else []
  }

  /** Everything a complete dump emits, with the position each piece is planned for. */
  function Plan(vmas: seq<Vma>, notes: seq<Note>, noteSize: nat, present: set<(nat, nat)>): seq<Chunk> {
    var data := DataOffset(vmas, noteSize);
    HeadChunks(vmas, noteSize) + PhdrChunks(vmas, data, |vmas|) + AllNoteChunks(notes, NoteOffset(vmas))
    + AllPageChunks(vmas, data, present, |vmas|) + TailChunks(vmas, data)
  }

  // ---- what the plan promises ----

  /** The pieces lie in [lo, hi), one behind the other. */
  predicate Ordered(cs: seq<Chunk>, lo: nat, hi: nat) {
    && lo <= hi
    && (forall a :: 0 <= a < |cs| ==> lo <= cs[a].pos && cs[a].pos + cs[a].size <= hi)
    && forall a, b :: 0 <= a < b < |cs| ==> cs[a].pos + cs[a].size <= cs[b].pos
  }

  lemma OrderedJoin(a: seq<Chunk>, b: seq<Chunk>, lo: nat, mid: nat, hi: nat)
    requires Ordered(a, lo, mid) && Ordered(b, mid, hi)
    ensures Ordered(a + b, lo, hi)
  {
  }

  lemma OrderedOne(c: Chunk, lo: nat, hi: nat)
    requires lo <= c.pos && c.pos + c.size <= hi
    ensures Ordered([c], lo, hi)
  {
  }

  lemma {:induction false} PhdrsOrdered(vmas: seq<Vma>, data: nat, n: nat)
    requires n <= |vmas|
    ensures Ordered(PhdrChunks(vmas, data, n), EHDR_SIZE + PHDR_SIZE, EHDR_SIZE + PHDR_SIZE * (n + 1))
    ensures forall c :: c in PhdrChunks(vmas, data, n) ==> c.item.PhdrLoad? && c.item.i < n && c == PhdrChunk(vmas, data, c.item.i)
    decreases n
  {
    hide LoadOffset;
    if n > 0 {
      PhdrsOrdered(vmas, data, n - 1);
      OrderedOne(PhdrChunk(vmas, data, n - 1), EHDR_SIZE + PHDR_SIZE * n, EHDR_SIZE + PHDR_SIZE * (n + 1));
      OrderedJoin(PhdrChunks(vmas, data, n - 1), [PhdrChunk(vmas, data, n - 1)],
                  EHDR_SIZE + PHDR_SIZE, EHDR_SIZE + PHDR_SIZE * n, EHDR_SIZE + PHDR_SIZE * (n + 1));
    }
  }

  predicate IsNote(c: Item) { c.NoteHead? || c.NoteName? || c.NoteData? }

  lemma NoteOrdered(n: Note, pos: nat)
    ensures Ordered(NoteChunks(n, pos), pos, pos + NoteSize(n))
    ensures forall c :: c in NoteChunks(n, pos) ==> IsNote(c.item)
  {
  }

  lemma {:induction false} NotesOrdered(ns: seq<Note>, pos: nat)
    ensures Ordered(AllNoteChunks(ns, pos), pos, pos + NotesSize(ns))
    ensures forall c :: c in AllNoteChunks(ns, pos) ==> IsNote(c.item)
    decreases |ns|
  {
    hide NoteChunks, NoteSize;
    if ns != [] {
      NoteOrdered(ns[0], pos);
      NotesOrdered(ns[1..], pos + NoteSize(ns[0]));
      OrderedJoin(NoteChunks(ns[0], pos), AllNoteChunks(ns[1..], pos + NoteSize(ns[0])), pos, pos + NoteSize(ns[0]), pos + NotesSize(ns));
    }
  }

  /** Page k of area i at its place, with k inside the area. */
  predicate IsPageOf(vmas: seq<Vma>, data: nat, c: Chunk, n: nat) {
    && (c.item.Load? || c.item.Hole?) && c.item.i < n <= |vmas| && c.item.k < vmas[c.item.i].dumpSize / PAGE_SIZE
    && c.pos == LoadOffset(vmas, data, c.item.i) + c.item.k * PAGE_SIZE && c.size == PAGE_SIZE
  }

  lemma {:induction false} PagesOrdered(vmas: seq<Vma>, data: nat, present: set<(nat, nat)>, i: nat, n: nat)
    requires i < |vmas| && n <= vmas[i].dumpSize / PAGE_SIZE
    ensures var lo := LoadOffset(vmas, data, i); Ordered(PageChunks(vmas, data, present, i, n), lo, lo + n * PAGE_SIZE)
    ensures forall c :: c in PageChunks(vmas, data, present, i, n) ==> IsPageOf(vmas, data, c, i + 1)
    decreases n
  {
    hide LoadOffset;
    if n > 0 {
      var lo, c := LoadOffset(vmas, data, i), PageChunk(vmas, data, present, i, n - 1);
      PagesOrdered(vmas, data, present, i, n - 1);
      OrderedOne(c, lo + (n - 1) * PAGE_SIZE, lo + n * PAGE_SIZE);
      OrderedJoin(PageChunks(vmas, data, present, i, n - 1), [c], lo, lo + (n - 1) * PAGE_SIZE, lo + n * PAGE_SIZE);
    }
  }

  predicate WholePages(vmas: seq<Vma>) { forall i :: 0 <= i < |vmas| ==> vmas[i].dumpSize % PAGE_SIZE == 0 }

  lemma LoadOffsetStep(vmas: seq<Vma>, data: nat, i: nat)
    requires i < |vmas|
    ensures LoadOffset(vmas, data, i + 1) == LoadOffset(vmas, data, i) + vmas[i].dumpSize
  {
    assert vmas[..i + 1][..i] == vmas[..i];
  }

  lemma {:induction false} AreasOrdered(vmas: seq<Vma>, data: nat, present: set<(nat, nat)>, n: nat)
    requires n <= |vmas| && WholePages(vmas)
    ensures Ordered(AllPageChunks(vmas, data, present, n), data, LoadOffset(vmas, data, n))
    ensures forall c :: c in AllPageChunks(vmas, data, present, n) ==> IsPageOf(vmas, data, c, n)
    decreases n
  {
    hide LoadOffset, PageChunks;
    if n > 0 {
      var lo, mid, k := data, LoadOffset(vmas, data, n - 1), vmas[n - 1].dumpSize / PAGE_SIZE;
      AreasOrdered(vmas, data, present, n - 1);
      PagesOrdered(vmas, data, present, n - 1, k);
      LoadOffsetStep(vmas, data, n - 1);
      OrderedJoin(AllPageChunks(vmas, data, present, n - 1), PageChunks(vmas, data, present, n - 1, k), lo, mid, mid + k * PAGE_SIZE);
    } else {
      LoadOffsetZero(vmas, data);
    }
  }

  lemma LoadOffsetZero(vmas: seq<Vma>, data: nat)
    ensures LoadOffset(vmas, data, 0) == data
  {
  }

  /** The pieces of a dump follow each other without overlap, each kind in its own part of the file. */
  lemma PlanOrdered(vmas: seq<Vma>, notes: seq<Note>, present: set<(nat, nat)>)
    requires WholePages(vmas)
    ensures var data := DataOffset(vmas, NotesSize(notes));
            Ordered(Plan(vmas, notes, NotesSize(notes), present), 0, ShOff(vmas, data) + SHDR_SIZE)
  {
    hide HeadChunks, PhdrChunks, AllNoteChunks, AllPageChunks, TailChunks, LoadOffset;
    var size, at := NotesSize(notes), NoteOffset(vmas);
    var data := DataOffset(vmas, size);
    var h, ph, nt := HeadChunks(vmas, size), PhdrChunks(vmas, data, |vmas|), AllNoteChunks(notes, at);
    var pg, tl := AllPageChunks(vmas, data, present, |vmas|), TailChunks(vmas, data);
    EndsOrdered(vmas, size, data);
    PhdrsOrdered(vmas, data, |vmas|);
    NotesOrdered(notes, at);
    AreasOrdered(vmas, data, present, |vmas|);
    OrderedJoin(h, ph, 0, EHDR_SIZE + PHDR_SIZE, at);
    OrderedJoin(h + ph, nt, 0, at, at + size);
    assert Ordered(h + ph + nt, 0, data);
    OrderedJoin(h + ph + nt, pg, 0, data, ShOff(vmas, data));
    OrderedJoin(h + ph + nt + pg, tl, 0, ShOff(vmas, data), ShOff(vmas, data) + SHDR_SIZE);
  }

  lemma EndsOrdered(vmas: seq<Vma>, noteSize: nat, data: nat)
    ensures Ordered(HeadChunks(vmas, noteSize), 0, EHDR_SIZE + PHDR_SIZE)
    ensures Ordered(TailChunks(vmas, data), ShOff(vmas, data), ShOff(vmas, data) + SHDR_SIZE)
  {
  }

  /** Each kind of piece comes from its part of the plan. */
  lemma PlanPieces(vmas: seq<Vma>, notes: seq<Note>, present: set<(nat, nat)>, c: Chunk)
    requires WholePages(vmas) && c in Plan(vmas, notes, NotesSize(notes), present)
    ensures var data := DataOffset(vmas, NotesSize(notes));
            && (c.item.PhdrLoad? ==> c.item.i < |vmas| && c == PhdrChunk(vmas, data, c.item.i))
            && (c.item.Load? || c.item.Hole? ==> IsPageOf(vmas, data, c, |vmas|))
            && (IsNote(c.item) ==> NoteOffset(vmas) <= c.pos && c.pos + c.size <= NoteOffset(vmas) + NotesSize(notes))
            && (c.item.Header? ==> c == HeadChunks(vmas, NotesSize(notes))[0])
            && (c.item.PhdrNote? ==> c == HeadChunks(vmas, NotesSize(notes))[1])
            && (c.item.Shdr? ==> c in TailChunks(vmas, data))
  {
    hide LoadOffset, PhdrChunks, AllNoteChunks, AllPageChunks, IsPageOf;
    var data := DataOffset(vmas, NotesSize(notes));
    PhdrsOrdered(vmas, data, |vmas|);
    NotesOrdered(notes, NoteOffset(vmas));
    AreasOrdered(vmas, data, present, |vmas|);
    NotePieces(notes, NoteOffset(vmas), c);
    IsPageKind(vmas, data, present);
  }

  lemma IsPageKind(vmas: seq<Vma>, data: nat, present: set<(nat, nat)>)
    requires WholePages(vmas)
    ensures forall c :: c in AllPageChunks(vmas, data, present, |vmas|) ==> c.item.Load? || c.item.Hole?
  {
    AreasOrdered(vmas, data, present, |vmas|);
  }

  /** What a program header or the ELF header announces is found at the announced offset. */
  lemma PlanIsHonest(vmas: seq<Vma>, notes: seq<Note>, present: set<(nat, nat)>, h: Chunk, c: Chunk)
    requires WholePages(vmas)
    requires var plan := Plan(vmas, notes, NotesSize(notes), present); h in plan && c in plan
    ensures h.item.PhdrLoad? && (c.item.Load? || c.item.Hole?) && c.item.i == h.item.i ==>
              c.pos == h.item.offset + c.item.k * PAGE_SIZE && c.pos + c.size <= h.item.offset + h.item.filesz
    ensures h.item.PhdrNote? && IsNote(c.item) ==>
              h.item.offset <= c.pos && c.pos + c.size <= h.item.offset + h.item.filesz
    ensures h.item.Header? && c.item.Shdr? ==> c.pos == h.item.shoff
  {
    hide LoadOffset, Plan;
    PlanPieces(vmas, notes, present, h);
    PlanPieces(vmas, notes, present, c);
  }

  lemma {:induction false} PhdrsListed(vmas: seq<Vma>, data: nat, n: nat)
    requires n <= |vmas|
    ensures |PhdrChunks(vmas, data, n)| == n
    ensures forall i :: 0 <= i < n ==> PhdrChunks(vmas, data, n)[i] == PhdrChunk(vmas, data, i)
    decreases n
  {
    hide PhdrChunk;
    if n > 0 { PhdrsListed(vmas, data, n - 1); }
  }

  lemma {:induction false} PagesListed(vmas: seq<Vma>, data: nat, present: set<(nat, nat)>, i: nat, n: nat)
    requires i < |vmas|
    ensures |PageChunks(vmas, data, present, i, n)| == n
    ensures forall k :: 0 <= k < n ==> PageChunks(vmas, data, present, i, n)[k] == PageChunk(vmas, data, present, i, k)
    decreases n
  {
    hide PageChunk;
    if n > 0 { PagesListed(vmas, data, present, i, n - 1); }
  }

  lemma {:induction false} PageIsEmitted(vmas: seq<Vma>, data: nat, present: set<(nat, nat)>, n: nat, i: nat, k: nat)
    requires i < n <= |vmas| && k < vmas[i].dumpSize / PAGE_SIZE
    ensures PageChunk(vmas, data, present, i, k) in AllPageChunks(vmas, data, present, n)
    decreases n
  {
    hide PageChunk, PageChunks;
    if i == n - 1 {
      PagesListed(vmas, data, present, i, vmas[i].dumpSize / PAGE_SIZE);
    } else {
      PageIsEmitted(vmas, data, present, n - 1, i, k);
    }
  }

  /** Page k of area i, whether it is there or not. */
  predicate IsPiece(c: Chunk, i: nat, k: nat) { c.item == Load(i, k) || c.item == Hole(i, k) }

  /** Piece m of the plan is page k of area i and the only one; it has contents exactly if the page is present. */
  ghost predicate OnlyPiece(plan: seq<Chunk>, m: nat, present: set<(nat, nat)>, i: nat, k: nat) {
    && m < |plan| && plan[m].item == (if (i, k) in present then Load(i, k) else Hole(i, k))
    && forall l :: 0 <= l < |plan| && IsPiece(plan[l], i, k) ==> l == m
  }

  predicate Announced(vmas: seq<Vma>, i: nat, k: nat) { i < |vmas| && (k + 1) * PAGE_SIZE <= vmas[i].dumpSize }

  ghost predicate PageOnce(plan: seq<Chunk>, present: set<(nat, nat)>, i: nat, k: nat) {
    exists m: nat :: OnlyPiece(plan, m, present, i, k)
  }

  lemma AnnouncedPage(vmas: seq<Vma>, i: nat, k: nat)
    requires Announced(vmas, i, k)
    ensures k < vmas[i].dumpSize / PAGE_SIZE
  {
  }

  /** Two pieces at the same place are the same, unless they are empty. */
  lemma OnePlace(cs: seq<Chunk>, lo: nat, hi: nat, l: nat, m: nat)
    requires Ordered(cs, lo, hi) && l < |cs| && m < |cs| && cs[l].pos == cs[m].pos && cs[l].size > 0 && cs[m].size > 0
    ensures l == m
  {
  }

  /** Of every page that an area announces there is exactly one piece, with contents exactly if it is present. */
  lemma PageExactlyOnce(vmas: seq<Vma>, notes: seq<Note>, present: set<(nat, nat)>, i: nat, k: nat)
    requires WholePages(vmas) && Announced(vmas, i, k)
    ensures PageOnce(Plan(vmas, notes, NotesSize(notes), present), present, i, k)
  {
    var plan, data := Plan(vmas, notes, NotesSize(notes), present), DataOffset(vmas, NotesSize(notes));
    var c := PageChunk(vmas, data, present, i, k);
    AnnouncedPage(vmas, i, k);
    PageIsEmitted(vmas, data, present, |vmas|, i, k);
    PageInPlan(vmas, notes, present, c);
    PlanOrdered(vmas, notes, present);
    hide Plan, LoadOffset, DataOffset, Ordered, PhdrChunk, HeadChunks, TailChunks, NoteOffset, NotesSize, Announced;
    var m: nat :| 0 <= m < |plan| && plan[m] == c;
    forall l | 0 <= l < |plan| && IsPiece(plan[l], i, k) ensures l == m {
      PlanPieces(vmas, notes, present, plan[l]);
      OnePlace(plan, 0, ShOff(vmas, data) + SHDR_SIZE, l, m);
    }
    assert OnlyPiece(plan, m, present, i, k);
  }

  lemma {:induction false} LoadOffsetAligned(vmas: seq<Vma>, data: nat, i: nat)
    requires i <= |vmas| && WholePages(vmas) && data % PAGE_SIZE == 0
    ensures LoadOffset(vmas, data, i) % PAGE_SIZE == 0
    decreases i
  {
    if i > 0 {
      LoadOffsetAligned(vmas, data, i - 1);
      LoadOffsetStep(vmas, data, i - 1);
      MultipleSum(LoadOffset(vmas, data, i - 1), vmas[i - 1].dumpSize, PAGE_SIZE);
    } else {
      LoadOffsetZero(vmas, data);
    }
  }

  /** Each area has exactly one program header: it announces what is dumped of the area, from a page boundary on. */
  lemma PlanIsComplete(vmas: seq<Vma>, notes: seq<Note>, present: set<(nat, nat)>, i: nat)
    requires WholePages(vmas) && i < |vmas|
    ensures var plan := Plan(vmas, notes, NotesSize(notes), present);
            && 2 + i < |plan| && plan[2 + i].item.PhdrLoad? && plan[2 + i].item.i == i
            && plan[2 + i].pos == EHDR_SIZE + PHDR_SIZE * (i + 1) && plan[2 + i].size == PHDR_SIZE
            && plan[2 + i].item.filesz == vmas[i].dumpSize && plan[2 + i].item.offset % PAGE_SIZE == 0
            && (forall m :: 0 <= m < |plan| && plan[m].item.PhdrLoad? && plan[m].item.i == i ==> m == 2 + i)
  {
    var plan, data := Plan(vmas, notes, NotesSize(notes), present), DataOffset(vmas, NotesSize(notes));
    HeaderAt(vmas, notes, present, i);
    LoadOffsetAligned(vmas, data, i);
    PlanOrdered(vmas, notes, present);
    hide Plan, LoadOffset, DataOffset;
    forall m | 0 <= m < |plan| && plan[m].item.PhdrLoad? && plan[m].item.i == i ensures m == 2 + i {
      PlanPieces(vmas, notes, present, plan[m]);
    }
  }

  lemma HeaderAt(vmas: seq<Vma>, notes: seq<Note>, present: set<(nat, nat)>, i: nat)
    requires i < |vmas|
    ensures var plan := Plan(vmas, notes, NotesSize(notes), present);
            2 + i < |plan| && plan[2 + i] == PhdrChunk(vmas, DataOffset(vmas, NotesSize(notes)), i)
  {
    hide PhdrChunk, PhdrChunks, AllNoteChunks, AllPageChunks, TailChunks, DataOffset;
    PhdrsListed(vmas, DataOffset(vmas, NotesSize(notes)), |vmas|);
  }

  lemma PageInPlan(vmas: seq<Vma>, notes: seq<Note>, present: set<(nat, nat)>, c: Chunk)
    requires c in AllPageChunks(vmas, DataOffset(vmas, NotesSize(notes)), present, |vmas|)
    ensures c in Plan(vmas, notes, NotesSize(notes), present)
  {
    hide PhdrChunks, AllNoteChunks, AllPageChunks, TailChunks, HeadChunks, DataOffset;
  }

  /** Readers find the number of segments, whatever it is: in e_phnum, or in sh_info of the one section header. */
  lemma SegsRecovered(vmas: seq<Vma>, notes: seq<Note>, noteSize: nat, present: set<(nat, nat)>)
    ensures var plan := Plan(vmas, notes, noteSize, present);
            && |plan| >= 2 && plan[0].item.Header? && plan[0].item.phnum <= 0xffff
            && if plan[0].item.phnum == PN_XNUM
               then var last := plan[|plan| - 1]; last.item == Shdr(|vmas| + 1) && last.pos == plan[0].item.shoff
               else plan[0].item.phnum == |vmas| + 1
  {
  }

  /**
   * A note as a reader finds it at `at` (chapter 5 of the gABI, Note Section): head, name with its NUL, and
   * contents, each part padded to four bytes.
   */
  ghost predicate Readable(plan: seq<Chunk>, n: Note, at: nat, next: nat) {
    && Chunk(at, 12, NoteHead(n)) in plan && Chunk(at + 12, |n.name| + 1, NoteName(n)) in plan
    && exists d: nat ::
         && at + 12 + |n.name| + 1 <= d < at + 12 + |n.name| + 5 && d % 4 == 0 && Chunk(d, n.size, NoteData(n)) in plan
         && d + n.size <= next < d + n.size + 4 && next % 4 == 0
  }

  /** Where note j begins. */
  function NoteAt(vmas: seq<Vma>, notes: seq<Note>, j: nat): nat
    requires j <= |notes|
  {
    NoteOffset(vmas) + NotesSize(notes[..j])
  }

  lemma {:induction false} NoteChunksAt(ns: seq<Note>, pos: nat, j: nat)
    requires j < |ns|
    ensures NotesSize(ns[..j + 1]) == NotesSize(ns[..j]) + NoteSize(ns[j])
    ensures forall c :: c in NoteChunks(ns[j], pos + NotesSize(ns[..j])) ==> c in AllNoteChunks(ns, pos)
    decreases j
  {
    hide NoteChunks, NoteSize;
    if j > 0 {
      NoteChunksAt(ns[1..], pos + NoteSize(ns[0]), j - 1);
      assert ns[..j][1..] == ns[1..][..j - 1] && ns[..j + 1][1..] == ns[1..][..j] && ns[..j][0] == ns[0] && ns[..j + 1][0] == ns[0];
    } else {
      assert ns[..0] == [] && ns[..1] == [ns[0]];
      OneNote(ns[0]);
    }
  }

  lemma NoteInPlan(vmas: seq<Vma>, notes: seq<Note>, present: set<(nat, nat)>, c: Chunk)
    requires c in AllNoteChunks(notes, NoteOffset(vmas))
    ensures c in Plan(vmas, notes, NotesSize(notes), present)
  {
    hide PhdrChunks, AllNoteChunks, AllPageChunks, TailChunks, HeadChunks, DataOffset, NoteOffset;
  }

  lemma NoteSizeAligned(n: Note)
    ensures NoteSize(n) % 4 == 0
  {
    hide AlignUp;
    MultipleSum(AlignUp(|n.name| + 1, 4), AlignUp(n.size, 4), 4);
    MultipleSum(NHDR_SIZE, AlignUp(|n.name| + 1, 4) + AlignUp(n.size, 4), 4);
  }

  lemma {:induction false} NoteSizesAligned(ns: seq<Note>)
    ensures NotesSize(ns) % 4 == 0
    decreases |ns|
  {
    hide NoteSize;
    if ns != [] {
      NoteSizesAligned(ns[1..]);
      NoteSizeAligned(ns[0]);
      MultipleSum(NoteSize(ns[0]), NotesSize(ns[1..]), 4);
    }
  }

  lemma NoteAtAligned(vmas: seq<Vma>, notes: seq<Note>, j: nat)
    requires j <= |notes|
    ensures NoteAt(vmas, notes, j) % 4 == 0
  {
    hide NotesSize, NoteOffset;
    NoteSizesAligned(notes[..j]);
    MultipleSum(NoteOffset(vmas), NotesSize(notes[..j]), 4);
  }

  lemma NoteReadable(plan: seq<Chunk>, n: Note, at: nat)
    requires at % 4 == 0 && forall c :: c in NoteChunks(n, at) ==> c in plan
    ensures Readable(plan, n, at, at + NoteSize(n))
  {
    hide AlignUp;
    var cs, d := NoteChunks(n, at), at + 12 + AlignUp(|n.name| + 1, 4);
    assert cs[0] in cs && cs[1] in cs && cs[2] in cs;
    MultipleSum(at + 12, AlignUp(|n.name| + 1, 4), 4);
    MultipleSum(d, AlignUp(n.size, 4), 4);
    assert cs[2] == Chunk(d, n.size, NoteData(n));
  }

  lemma NoteHeaderAt(vmas: seq<Vma>, notes: seq<Note>, noteSize: nat, present: set<(nat, nat)>)
    ensures var plan := Plan(vmas, notes, noteSize, present); |plan| > 1 && plan[1].item == PhdrNote(NoteOffset(vmas), noteSize)
  {
    hide PhdrChunks, AllNoteChunks, AllPageChunks, TailChunks, DataOffset, NoteOffset, ShOff;
  }

  lemma NoteAtEnds(vmas: seq<Vma>, notes: seq<Note>, j: nat)
    requires j < |notes|
    ensures NoteAt(vmas, notes, 0) == NoteOffset(vmas)
    ensures NoteAt(vmas, notes, |notes|) == NoteOffset(vmas) + NotesSize(notes)
    ensures NoteAt(vmas, notes, j + 1) == NoteAt(vmas, notes, j) + NoteSize(notes[j])
    ensures forall c :: c in NoteChunks(notes[j], NoteAt(vmas, notes, j)) ==> c in AllNoteChunks(notes, NoteOffset(vmas))
  {
    hide NoteOffset, NoteSize, NoteChunks, AllNoteChunks;
    assert notes[..0] == [] && notes[..|notes|] == notes;
    NoteChunksAt(notes, NoteOffset(vmas), j);
  }

  /** From the offset in the PT_NOTE header a reader finds the notes one after the other, and they end where it says. */
  lemma NotesAreReadable(vmas: seq<Vma>, notes: seq<Note>, present: set<(nat, nat)>, j: nat)
    requires j < |notes|
    ensures var plan := Plan(vmas, notes, NotesSize(notes), present);
            && |plan| > 1 && plan[1].item == PhdrNote(NoteAt(vmas, notes, 0), NotesSize(notes))
            && NoteAt(vmas, notes, |notes|) == NoteAt(vmas, notes, 0) + NotesSize(notes)
            && Readable(plan, notes[j], NoteAt(vmas, notes, j), NoteAt(vmas, notes, j + 1))
  {
    hide *;
    var plan, at := Plan(vmas, notes, NotesSize(notes), present), NoteAt(vmas, notes, j);
    NoteHeaderAt(vmas, notes, NotesSize(notes), present);
    NoteAtAligned(vmas, notes, j);
    NoteAtEnds(vmas, notes, j);
    forall c | c in NoteChunks(notes[j], at) ensures c in plan { NoteInPlan(vmas, notes, present, c); }
    NoteReadable(plan, notes[j], at);
  }

  lemma NotePieces(notes: seq<Note>, pos: nat, c: Chunk)
    ensures c in AllNoteChunks(notes, pos) ==> pos <= c.pos && c.pos + c.size <= pos + NotesSize(notes)
  {
    NotesOrdered(notes, pos);
  }
}
