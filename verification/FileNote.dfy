/**
 * The NT_FILE note of a core dump (fill_files_note in fs/binfmt_elf.c): the mapped files with their
 * ranges and names, built in one buffer that is enlarged until the names fit.
 */
module FileNote {
  import opened Common

  const MAX_FILE_NOTE_SIZE: nat := 4 * 1024 * 1024
  const UINT_MAX: nat := 0xffff_ffff
  const LONG: nat := 8
  const LONG_LIMIT: nat := 0x1_0000_0000_0000_0000

  type Str = seq<Byte>

  /** What file_path makes of a file: a name, or an error other than ENAMETOOLONG. */
  datatype FilePath = Named(path: Str) | Nameless

  datatype Vma = Vma(start: nat, end: nat, pgoff: nat, file: Option<FilePath>)

  datatype Mapping = Mapping(start: nat, end: nat, pgoff: nat, path: Str)

  datatype Errno = EINVAL | ENOMEM

  /** The mappings the note is about: those with a file that has a name, in order. */
  function FilesOf(vmas: seq<Vma>): seq<Mapping> {
    if vmas == [] then []
    else
      var v := vmas[|vmas| - 1];
      FilesOf(vmas[..|vmas| - 1]) +
      (if v.file.Some? && v.file.value.Named? then [Mapping(v.start, v.end, v.pgoff, v.file.value.path)] else [])
  }

  predicate HasName(v: Vma) { v.file.Some? && v.file.value.Named? }

  /** How many of the first `i` areas have a named file. */
  function NamedBefore(vmas: seq<Vma>, i: nat): nat
    requires i <= |vmas|
  {
    if i == 0 then 0 else NamedBefore(vmas, i - 1) + if HasName(vmas[i - 1]) then 1 else 0
  }

  lemma {:induction false} NamedPrefix(vmas: seq<Vma>, n: nat, i: nat)
    requires i <= n <= |vmas|
    ensures NamedBefore(vmas[..n], i) == NamedBefore(vmas, i)
    decreases i
  {
    if i > 0 { NamedPrefix(vmas, n, i - 1); }
  }

  /** Every area with a named file has its mapping, with its own range, offset and name, in the order of the areas; there are no others. */
  lemma {:induction false} FilesExactly(vmas: seq<Vma>, i: nat)
    requires i < |vmas|
    ensures |FilesOf(vmas)| == NamedBefore(vmas, |vmas|)
    ensures HasName(vmas[i]) ==>
      var k := NamedBefore(vmas, i);
      && k < |FilesOf(vmas)| && FilesOf(vmas)[k].start == vmas[i].start && FilesOf(vmas)[k].end == vmas[i].end
      && FilesOf(vmas)[k].pgoff == vmas[i].pgoff && FilesOf(vmas)[k].path == vmas[i].file.value.path
    decreases |vmas|
  {
    var n := |vmas| - 1;
    if n > 0 {
      FilesExactly(vmas[..n], if i < n then i else 0);
    } else {
      assert vmas[..0] == [];
    }
    NamedPrefix(vmas, n, n);
    NamedPrefix(vmas, n, Min(i, n));
  }

  // ---- the format ----

  /** The `k` low bytes of v, least significant first. */
  function Bytes(v: nat, k: nat): (bs: seq<Byte>)
    ensures |bs| == k
    decreases k
  {
    if k == 0 then [] else [(v % 256) as Byte] + Bytes(v / 256, k - 1)
  }

  function Value(bs: seq<Byte>): nat {
    if bs == [] then 0 else bs[0] as nat + 256 * Value(bs[1..])
  }

  function Power256(k: nat): nat { if k == 0 then 1 else 256 * Power256(k - 1) }

  lemma {:induction false} BytesValue(v: nat, k: nat)
    requires v < Power256(k)
    ensures Value(Bytes(v, k)) == v
    decreases k
  {
    if k > 0 { BytesValue(v / 256, k - 1); }
  }

  function Long(v: nat): (bs: seq<Byte>)
    ensures |bs| == LONG
  {
    Bytes(v, LONG)
  }

  lemma LongValue(v: nat)
    requires v < LONG_LIMIT
    ensures Value(Long(v)) == v
  {
    assert Power256(8) == LONG_LIMIT by {
      assert Power256(2) == 0x1_0000;
      assert Power256(4) == 0x1_0000_0000;
      assert Power256(6) == 0x1_0000_0000_0000;
    }
    BytesValue(v, LONG);
  }

  function Entry(f: Mapping): (bs: seq<Byte>)
    ensures |bs| == 3 * LONG
  {
    Long(f.start) + Long(f.end) + Long(f.pgoff)
  }

  function Entries(fs: seq<Mapping>): (bs: seq<Byte>)
    ensures |bs| == 3 * LONG * |fs|
  {
    if fs == [] then [] else Entry(fs[0]) + Entries(fs[1..])
  }

  function Names(fs: seq<Mapping>): seq<Byte> {
    if fs == [] then [] else fs[0].path + [0] + Names(fs[1..])
  }

  function Encode(fs: seq<Mapping>): seq<Byte> {
    Long(|fs|) + Long(PAGE_SIZE) + Entries(fs) + Names(fs)
  }

  // ---- reading a note back ----

  function NulAt(bs: seq<Byte>): (n: nat)
    ensures n <= |bs| && 0 !in bs[..n] && (n < |bs| ==> bs[n] == 0)
  {
    if bs == [] || bs[0] == 0 then 0
    else
      var n := NulAt(bs[1..]);
      assert bs[..n + 1] == [bs[0]] + bs[1..][..n];
      n + 1
  }

  /** `n` entries and `n` names, and nothing else. */
  function Read(entries: seq<Byte>, names: seq<Byte>, n: nat): Option<seq<Mapping>>
    requires |entries| == 3 * LONG * n
    decreases n
  {
    if n == 0 then (if names == [] then Some([]) else None)
    else
      var k := NulAt(names);
      if k == |names| then None
      else
        var rest := Read(entries[3 * LONG..], names[k + 1..], n - 1);
        if rest.None? then None
        else
          Some([Mapping(Value(entries[..LONG]), Value(entries[LONG..2 * LONG]), Value(entries[2 * LONG..3 * LONG]), names[..k])]
               + rest.value)
  }

  function Decode(bs: seq<Byte>): Option<seq<Mapping>> {
    if |bs| < 2 * LONG then None
    else
      var n, page, names := Value(bs[..LONG]), Value(bs[LONG..2 * LONG]), 2 * LONG + 3 * LONG * Value(bs[..LONG]);
      if page != PAGE_SIZE || |bs| < names then None
      else Read(bs[2 * LONG..names], bs[names..], n)
  }

  predicate Representable(f: Mapping) {
    f.start < LONG_LIMIT && f.end < LONG_LIMIT && f.pgoff < LONG_LIMIT && 0 !in f.path
  }

  lemma {:induction false} NulIs(path: Str, rest: seq<Byte>)
    requires 0 !in path
    ensures NulAt(path + [0] + rest) == |path|
    decreases |path|
  {
    var bs := path + [0] + rest;
    if path != [] {
      assert bs[0] == path[0] && path[0] in path;
      assert bs[1..] == path[1..] + [0] + rest;
      NulIs(path[1..], rest);
    }
  }

  lemma EntryParts(f: Mapping, rest: seq<Byte>)
    requires Representable(f)
    ensures var es := Entry(f) + rest;
            && es[3 * LONG..] == rest && Value(es[..LONG]) == f.start
            && Value(es[LONG..2 * LONG]) == f.end && Value(es[2 * LONG..3 * LONG]) == f.pgoff
  {
    hide Value, Long;
    var es := Entry(f) + rest;
    assert es[..LONG] == Long(f.start);
    assert es[LONG..2 * LONG] == Long(f.end);
    assert es[2 * LONG..3 * LONG] == Long(f.pgoff);
    LongValue(f.start);
    LongValue(f.end);
    LongValue(f.pgoff);
  }

  lemma {:induction false} ReadBack(fs: seq<Mapping>)
    requires forall i :: 0 <= i < |fs| ==> Representable(fs[i])
    ensures Read(Entries(fs), Names(fs), |fs|) == Some(fs)
    decreases |fs|
  {
    hide Value, Long, Entry, NulAt;
    if fs != [] {
      var f, ns := fs[0], Names(fs);
      NulIs(f.path, Names(fs[1..]));
      assert ns[..|f.path|] == f.path && ns[|f.path| + 1..] == Names(fs[1..]);
      EntryParts(f, Entries(fs[1..]));
      ReadBack(fs[1..]);
      assert fs == [f] + fs[1..];
    }
  }

  /** A note decodes to exactly the mappings it was made from. */
  lemma RoundTrip(fs: seq<Mapping>)
    requires |fs| < LONG_LIMIT && forall i :: 0 <= i < |fs| ==> Representable(fs[i])
    ensures Decode(Encode(fs)) == Some(fs)
  {
    hide Value, Long, Entries, Names, Read;
    var bs, k := Encode(fs), 2 * LONG + 3 * LONG * |fs|;
    LongValue(|fs|);
    LongValue(PAGE_SIZE);
    assert bs[..LONG] == Long(|fs|);
    assert bs[LONG..2 * LONG] == Long(PAGE_SIZE);
    assert bs[2 * LONG..k] == Entries(fs);
    assert bs[k..] == Names(fs);
    ReadBack(fs);
  }

  // ---- building the note ----

  lemma {:induction false} EntriesSnoc(fs: seq<Mapping>, f: Mapping)
    ensures Entries(fs + [f]) == Entries(fs) + Entry(f)
    decreases |fs|
  {
    hide Entry;
    if fs != [] {
      assert (fs + [f])[1..] == fs[1..] + [f];
      EntriesSnoc(fs[1..], f);
    } else {
      assert fs + [f] == [f];
    }
  }

  lemma {:induction false} NamesSnoc(fs: seq<Mapping>, f: Mapping)
    ensures Names(fs + [f]) == Names(fs) + f.path + [0]
    decreases |fs|
  {
    if fs != [] {
      assert (fs + [f])[1..] == fs[1..] + [f];
      NamesSnoc(fs[1..], f);
    } else {
      assert fs + [f] == [f];
    }
  }

  /** A prefix of the mappings needs no more room for names than all of them. */
  lemma {:induction false} NamesGrow(vmas: seq<Vma>, i: nat)
    requires i <= |vmas|
    ensures |Names(FilesOf(vmas[..i]))| <= |Names(FilesOf(vmas))|
    decreases |vmas| - i
  {
    if i == |vmas| {
      assert vmas[..i] == vmas;
    } else {
      FilesStep(vmas, i);
      NamesGrow(vmas, i + 1);
    }
  }

  lemma FilesStep(vmas: seq<Vma>, i: nat)
    requires i < |vmas|
    ensures var v, fs, gs := vmas[i], FilesOf(vmas[..i]), FilesOf(vmas[..i + 1]);
            if v.file.Some? && v.file.value.Named? then
              var f := Mapping(v.start, v.end, v.pgoff, v.file.value.path);
              gs == fs + [f] && Names(gs) == Names(fs) + f.path + [0] && Entries(gs) == Entries(fs) + Entry(f)
            else gs == fs
  {
    var v := vmas[i];
    assert vmas[..i + 1][..i] == vmas[..i];
    if v.file.Some? && v.file.value.Named? {
      var f := Mapping(v.start, v.end, v.pgoff, v.file.value.path);
      NamesSnoc(FilesOf(vmas[..i]), f);
      EntriesSnoc(FilesOf(vmas[..i]), f);
    }
  }

  /** The bytes `cs` are in `bs` from index `at` on. */
  ghost predicate On(bs: seq<Byte>, at: nat, cs: seq<Byte>) {
    at + |cs| <= |bs| && forall k :: at <= k < at + |cs| ==> bs[k] == cs[k - at]
  }

  ghost predicate SameOutside(b: seq<Byte>, c: seq<Byte>, lo: nat, hi: nat) {
    |b| == |c| && forall k :: 0 <= k < |b| && !(lo <= k < hi) ==> b[k] == c[k]
  }

  lemma OnKept(b: seq<Byte>, c: seq<Byte>, lo: nat, hi: nat, at: nat, cs: seq<Byte>)
    requires On(b, at, cs) && SameOutside(b, c, lo, hi) && (at + |cs| <= lo || hi <= at)
    ensures On(c, at, cs)
  {
  }

  lemma OnJoin(b: seq<Byte>, at: nat, cs: seq<Byte>, ds: seq<Byte>)
    requires On(b, at, cs) && On(b, at + |cs|, ds)
    ensures On(b, at, cs + ds)
  {
  }

  lemma OnPrefix(b: seq<Byte>, cs: seq<Byte>)
    requires On(b, 0, cs)
    ensures b[..|cs|] == cs
  {
  }

  /** memmove to a lower address. */
  method MoveDown(a: array<Byte>, dst: nat, src: nat, n: nat)
    requires dst <= src && src + n <= a.Length
    modifies a
    ensures SameOutside(old(a[..]), a[..], dst, dst + n)
    ensures On(a[..], dst, old(a[src..src + n]))
  {
    var i := 0;
    ghost var d := src - dst;
    while i < n
      invariant 0 <= i <= n
      invariant forall k :: dst <= k < dst + i ==> a[k] == old(a[..])[k + d]
      invariant forall k :: 0 <= k < a.Length && !(dst <= k < dst + i) ==> a[k] == old(a[..])[k]
    {
      a[dst + i] := a[src + i];
      i := i + 1;
    }
    ghost var moved := old(a[src..src + n]);
    forall k | dst <= k < dst + n ensures a[k] == moved[k - dst] { }
  }

  /** Store bytes from index `at` on. */
  method Store(a: array<Byte>, at: nat, bs: seq<Byte>)
    requires at + |bs| <= a.Length
    modifies a
    ensures SameOutside(old(a[..]), a[..], at, at + |bs|) && On(a[..], at, bs)
  {
    var i := 0;
    while i < |bs|
      invariant 0 <= i <= |bs|
      invariant forall k :: at <= k < at + i ==> a[k] == bs[k - at]
      invariant forall k :: 0 <= k < a.Length && !(at <= k < at + i) ==> a[k] == old(a[..])[k]
    {
      a[at + i] := bs[i];
      i := i + 1;
    }
  }

  /** file_path: the name and its NUL at the end of the room given, if they fit. */
  method FilePathAt(a: array<Byte>, from: nat, room: nat, path: Str) returns (r: Option<nat>)
    requires from + room <= a.Length
    modifies a
    ensures r.None? <==> |path| + 1 > room
    ensures r.Some? ==>
      && r.value == from + room - |path| - 1 && On(a[..], r.value, path + [0])
      && SameOutside(old(a[..]), a[..], r.value, from + room)
  {
    if |path| + 1 > room { return None; }
    Store(a, from + room - |path| - 1, path + [0]);
    return Some(from + room - |path| - 1);
  }

  /** The entries and, from `names` on, the file names of the first mappings. */
  ghost predicate Filled(bs: seq<Byte>, fs: seq<Mapping>, names: nat) {
    && 2 * LONG + 3 * LONG * |fs| <= names && names + |Names(fs)| <= |bs|
    && On(bs, 2 * LONG, Entries(fs)) && On(bs, names, Names(fs))
  }

  /** One vma: its name goes behind the names so far, its range behind the ranges so far. */
  method AddMapping(a: array<Byte>, f: Mapping, ghost fs: seq<Mapping>, names: nat, count: nat, cur: nat)
    returns (ok: bool, next: nat)
    requires count == |fs| && Filled(a[..], fs, names) && cur == names + |Names(fs)|
    requires 2 * LONG + 3 * LONG * (count + 1) <= names
    modifies a
    ensures ok <==> cur + |f.path| + 1 <= a.Length
    ensures ok ==> next == cur + |f.path| + 1 && Filled(a[..], fs + [f], names)
  {
    hide On, SameOutside, Entry, Entries, Names;
    ghost var es, ns := Entries(fs), Names(fs);
    EntriesSnoc(fs, f);
    NamesSnoc(fs, f);
    ok, next := AddName(a, f.path, es, ns, names, cur);
    if !ok { return; }
    ghost var b := a[..];
    var at := 2 * LONG + 3 * LONG * count;
    Store(a, at, Entry(f));
    OnKept(b, a[..], at, at + 3 * LONG, 2 * LONG, es);
    OnKept(b, a[..], at, at + 3 * LONG, names, ns + (f.path + [0]));
    OnJoin(a[..], 2 * LONG, es, Entry(f));
    assert ns + f.path + [0] == ns + (f.path + [0]);
  }

  /** file_path puts the name at the end of the room left, and memmove moves it behind the names so far. */
  method AddName(a: array<Byte>, path: Str, ghost es: seq<Byte>, ghost ns: seq<Byte>, names: nat, cur: nat) returns (ok: bool, next: nat)
    requires On(a[..], 2 * LONG, es) && On(a[..], names, ns) && 2 * LONG + |es| <= names && names + |ns| == cur <= a.Length
    modifies a
    ensures ok <==> cur + |path| + 1 <= a.Length
    ensures ok ==> next == cur + |path| + 1 && On(a[..], 2 * LONG, es) && On(a[..], names, ns + (path + [0]))
  {
    hide On, SameOutside;
    ghost var b0 := a[..];
    var r := FilePathAt(a, cur, a.Length - cur, path);
    if r.None? { return false, cur; }
    ghost var b1 := a[..];
    OnKept(b0, b1, r.value, a.Length, 2 * LONG, es);
    OnKept(b0, b1, r.value, a.Length, names, ns);
    var n := a.Length - r.value;
    OnSlice(b1, r.value, path + [0]);
    MoveDown(a, cur, r.value, n);
    ghost var b2 := a[..];
    OnKept(b1, b2, cur, cur + n, 2 * LONG, es);
    OnKept(b1, b2, cur, cur + n, names, ns);
    OnJoin(b2, names, ns, path + [0]);
    return true, cur + n;
  }

  lemma OnSlice(b: seq<Byte>, at: nat, cs: seq<Byte>)
    requires On(b, at, cs)
    ensures b[at..at + |cs|] == cs
  {
  }

  lemma FilledNothing(bs: seq<Byte>, vmas: seq<Vma>, names: nat)
    requires 2 * LONG <= names <= |bs|
    ensures FilesOf(vmas[..0]) == [] && Names([]) == [] && Filled(bs, [], names)
  {
  }

  /** One turn of the loop over the vmas. */
  method AddVma(a: array<Byte>, vmas: seq<Vma>, i: nat, names: nat, count: nat, cur: nat) returns (ok: bool, count': nat, cur': nat)
    requires i < |vmas| && count == |FilesOf(vmas[..i])| && 2 * LONG + 3 * LONG * (count + 1) <= names
    requires Filled(a[..], FilesOf(vmas[..i]), names) && cur == names + |Names(FilesOf(vmas[..i]))|
    modifies a
    ensures !ok ==> names + |Names(FilesOf(vmas))| > a.Length
    ensures ok ==>
      && count <= count' == |FilesOf(vmas[..i + 1])| <= count + 1
      && Filled(a[..], FilesOf(vmas[..i + 1]), names) && cur' == names + |Names(FilesOf(vmas[..i + 1]))|
  {
    hide Filled, Entry, Entries, Names, FilesOf;
    var v := vmas[i];
    FilesStep(vmas, i);
    ok, count', cur' := true, count, cur;
    if v.file.Some? && v.file.value.Named? {
      ok, cur' := AddMapping(a, Mapping(v.start, v.end, v.pgoff, v.file.value.path), FilesOf(vmas[..i]), names, count, cur);
      count' := count + 1;
      NamesGrow(vmas, i + 1);
    }
  }

  /** One attempt with a buffer of fixed size; it fails only if the names do not fit. */
  method TryFill(a: array<Byte>, vmas: seq<Vma>, names: nat) returns (size: Option<nat>)
    requires names == (2 + 3 * |vmas|) * LONG && names <= a.Length
    modifies a
    ensures size.Some? ==> size.value <= a.Length && a[..size.value] == Encode(FilesOf(vmas))
    ensures size.None? <==> names + |Names(FilesOf(vmas))| > a.Length
  {
    hide Encode, Entries, On;
    var cur, count := names, 0;
    FilledNothing(a[..], vmas, names);
    for i := 0 to |vmas|
      invariant 0 <= count == |FilesOf(vmas[..i])| <= i
      invariant Filled(a[..], FilesOf(vmas[..i]), names) && cur == names + |Names(FilesOf(vmas[..i]))|
    {
      hide Filled, Names, FilesOf;
      var ok;
      ok, count, cur := AddVma(a, vmas, i, names, count, cur);
      if !ok { return None; }
    }
    assert vmas[..|vmas|] == vmas;
    size := Finish(a, |vmas|, FilesOf(vmas), names, count, cur);
  }

  /** Store the header and move the names down to the ranges. */
  method Finish(a: array<Byte>, mapCount: nat, ghost fs: seq<Mapping>, names: nat, count: nat, cur: nat) returns (size: Option<nat>)
    requires names == (2 + 3 * mapCount) * LONG && count == |fs| <= mapCount
    requires Filled(a[..], fs, names) && cur == names + |Names(fs)|
    modifies a
    ensures size.Some? && size.value <= a.Length && a[..size.value] == Encode(fs)
  {
    hide On, SameOutside, Long, Entries, Names;
    ghost var b0, es, ns := a[..], Entries(fs), Names(fs);
    Store(a, 0, Long(count));
    ghost var b1 := a[..];
    Store(a, LONG, Long(PAGE_SIZE));
    ghost var b2 := a[..];
    OnKept(b0, b1, 0, LONG, 2 * LONG, es);
    OnKept(b0, b1, 0, LONG, names, ns);
    OnKept(b1, b2, LONG, 2 * LONG, 0, Long(count));
    OnKept(b1, b2, LONG, 2 * LONG, 2 * LONG, es);
    OnKept(b1, b2, LONG, 2 * LONG, names, ns);
    OnJoin(b2, 0, Long(count), Long(PAGE_SIZE));
    OnJoin(b2, 0, Long(count) + Long(PAGE_SIZE), es);
    ghost var head := Long(count) + Long(PAGE_SIZE) + es;
    var shift := (mapCount - count) * 3 * LONG;
    assert names - shift == |head|;
    if mapCount - count != 0 {
      OnSlice(b2, names, ns);
      MoveDown(a, names - shift, names, cur - names);
      OnKept(b2, a[..], |head|, |head| + |ns|, 0, head);
    }
    OnJoin(a[..], 0, head, ns);
    OnPrefix(a[..], head + ns);
    return Some(cur - shift);
  }

  /** The sizes tried from `size` on: does one that holds `need` bytes come before the limit? */
  predicate Reaches(size: nat, need: nat)
    requires size > 0
    decreases MAX_FILE_NOTE_SIZE - size
  {
    size < MAX_FILE_NOTE_SIZE &&
    var room := AlignUp(size, PAGE_SIZE);
    need <= room || Reaches(room * 5 / 4, need)
  }

  /** What the ranges and the names of all mappings need, before the names are moved down. */
  function Needed(vmas: seq<Vma>): nat { (2 + 3 * |vmas|) * LONG + |Names(FilesOf(vmas))| }

  /** fill_files_note: try, and enlarge the buffer by a quarter until the names fit or it is too large. */
  method FillFilesNote(vmas: seq<Vma>) returns (r: Result<seq<Byte>, Errno>)
    ensures r.Ok? ==> r.value == Encode(FilesOf(vmas))
    ensures r == Err(ENOMEM) <==> vmas == []
    ensures r.Ok? <==> vmas != [] && |vmas| <= UINT_MAX / 64 && Reaches(64 * |vmas|, Needed(vmas))
  {
    hide Encode, Names, FilesOf;
    if |vmas| > UINT_MAX / 64 { return Err(EINVAL); }
    var size := |vmas| * 64;
    var names := (2 + 3 * |vmas|) * LONG;
    while size < MAX_FILE_NOTE_SIZE
      invariant |vmas| * 64 <= size && (size == 0 <==> vmas == [])
      invariant vmas != [] ==> (Reaches(64 * |vmas|, Needed(vmas)) <==> Reaches(size, Needed(vmas)))
      decreases MAX_FILE_NOTE_SIZE - size
    {
      size := AlignUp(size, PAGE_SIZE);
      if size == 0 { return Err(ENOMEM); }
      var data := new Byte[size](_ => 0);
      var n := TryFill(data, vmas, names);
      if n.Some? { return Ok(data[..n.value]); }
      size := size * 5 / 4;
    }
    return Err(EINVAL);
  }

  /** The note decodes to exactly the named file mappings of the process, in order. */
  lemma NoteRoundTrip(vmas: seq<Vma>)
    requires |vmas| < LONG_LIMIT && forall i :: 0 <= i < |vmas| ==> VmaOk(vmas[i])
    ensures Decode(Encode(FilesOf(vmas))) == Some(FilesOf(vmas))
  {
    FilesRepresentable(vmas);
    RoundTrip(FilesOf(vmas));
  }

  predicate VmaOk(v: Vma) {
    && v.start < LONG_LIMIT && v.end < LONG_LIMIT && v.pgoff < LONG_LIMIT
    && (v.file.Some? && v.file.value.Named? ==> 0 !in v.file.value.path)
  }

  lemma {:induction false} FilesRepresentable(vmas: seq<Vma>)
    requires forall i :: 0 <= i < |vmas| ==> VmaOk(vmas[i])
    ensures |FilesOf(vmas)| <= |vmas|
    ensures forall i :: 0 <= i < |FilesOf(vmas)| ==> Representable(FilesOf(vmas)[i])
    decreases |vmas|
  {
    if vmas != [] { FilesRepresentable(vmas[..|vmas| - 1]); }
  }
}
