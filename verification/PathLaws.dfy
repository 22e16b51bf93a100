/**
 * What the resolution of paths promises, in terms of strings, directories and entries: splitting,
 * absolute paths, paths without links, links, and paths that must name a directory.
 */
module PathLaws {
  import opened Common
  import opened PathModel
  import opened PathWalk

  // ---- splitting a path ----

  /** What can be the name of an entry. */
  predicate IsName(c: string) { c != "" && '/' !in c }

  /** A slash separates: the components before it and the components behind it. */
  lemma {:induction false} CompsConcat(s: string, t: string)
    ensures Comps(s + "/" + t) == Comps(s) + Comps(t)
    decreases |s|
  {
    var r := s + "/" + t;
    if s == "" {
      assert r[1..] == t;
    } else if s[0] == '/' {
      assert r[1..] == s[1..] + "/" + t;
      CompsConcat(s[1..], t);
    } else {
      var n := CompLen(s);
      CompsStep(s);
      ComponentIs(r, n);
      CompsStep(r);
      assert r[..n] == s[..n] && r[n..] == s[n..] + "/" + t;
      CompsConcat(s[n..], t);
    }
  }

  lemma CompsOne(c: string)
    requires IsName(c)
    ensures Comps(c) == [c]
  {
    ComponentIs(c, |c|);
    CompsStep(c);
    assert c[..|c|] == c && c[|c|..] == "";
  }

  function Joined(cs: seq<string>): string {
    if cs == [] then "" else cs[0] + "/" + Joined(cs[1..])
  }

  /** Splitting gives back the names that were joined. */
  lemma {:induction false} SplitJoined(cs: seq<string>)
    requires forall i :: 0 <= i < |cs| ==> IsName(cs[i])
    ensures Comps(Joined(cs)) == cs && Comps("/" + Joined(cs)) == cs
    decreases |cs|
  {
    if cs != [] {
      SplitJoined(cs[1..]);
      CompsOne(cs[0]);
      CompsConcat(cs[0], Joined(cs[1..]));
    }
    CompsConcat("", Joined(cs));
    assert "" + "/" + Joined(cs) == "/" + Joined(cs);
  }

  // ---- absolute paths ----

  /** An absolute path means the same from every directory. */
  lemma AbsoluteFromAnywhere(fs: Fs, d: Nid, e: Nid, name: string, follow: bool, directory: bool, links: nat)
    requires name != "" && name[0] == '/'
    ensures Resolve(fs, d, name, follow, directory, links) == Resolve(fs, e, name, follow, directory, links)
  {
  }

  // ---- paths without links ----

  datatype Plain = Arrived(n: Nid) | Missing | Blocked | Linked

  /** The object that `c` names in directory `n`. */
  function Named(fs: Fs, n: Nid, c: string): Option<Nid> {
    if c == "." then Some(n)
    else if c == ".." then (if n in fs.up then Some(fs.up[n]) else None)
    else if (n, c) in fs.entries then Some(fs.entries[(n, c)]) else None
  }

  /** Follow the entries one by one; no link is ever followed. */
  function Plainly(fs: Fs, n: Nid, comps: seq<string>): Plain
    decreases |comps|
  {
    if comps == [] then Arrived(n)
    else
      match Named(fs, n, comps[0])
      case None => Missing
      case Some(m) =>
        if m in fs.nodes && fs.nodes[m].Symlink? then Linked
        else if comps[1..] != [] && !IsDir(fs, m) then Blocked
        else Plainly(fs, m, comps[1..])
  }

  /** The walk to the last component follows the same entries. */
  lemma {:induction false} PlainWalk(fs: Fs, dir: Nid, comps: seq<string>, links: nat)
    requires Valid(fs) && IsDir(fs, dir) && comps != []
    ensures var p := Plainly(fs, dir, comps);
            !p.Linked? ==>
              match Walk(fs, dir, comps, links)
              case Failed(e) => (e == ENOENT && p.Missing?) || (e == ENOTDIR && p.Blocked?)
              case Parent(d, c, used) => used == links && IsDir(fs, d) && Plainly(fs, d, [c]) == p
    decreases |comps|
  {
    var c, rest := comps[0], comps[1..];
    if rest == [] {
      assert comps == [c];
    } else {
      assert comps == [c] + rest;
      WalkUnfolds(fs, dir, c, rest, links);
      var m := Named(fs, dir, c);
      if m.Some? && IsDir(fs, m.value) { PlainWalk(fs, m.value, rest, links); }
    }
  }

  /** What a path that meets no link gives. */
  ghost predicate PlainAnswer(fs: Fs, p: Plain, mustBeDir: bool, a: Answer) {
    match p
    case Arrived(n) => a == if mustBeDir && !IsDir(fs, n) then NotFound(ENOTDIR) else Found(n)
    case Missing => a == NotFound(ENOENT)
    case Blocked => a == NotFound(ENOTDIR)
    case Linked => true
  }

  lemma PlainLast(fs: Fs, d: Nid, c: string, slash: bool, follow: bool, directory: bool, used: nat, a: Answer)
    requires Valid(fs) && IsDir(fs, d) && LastMeans(fs, d, c, TypeOf(c), slash, follow, directory, used, a)
    ensures PlainAnswer(fs, Plainly(fs, d, [c]), directory || slash, a)
  {
    OneMore(fs, d, c);
    hide Plainly, Lookup;
    if TypeOf(c).DotDot? { assert IsDir(fs, fs.up[d]); }
  }

  lemma OneMore(fs: Fs, d: Nid, c: string)
    ensures Plainly(fs, d, [c]) == match Named(fs, d, c)
                                   case None => Missing
                                   case Some(m) => if m in fs.nodes && fs.nodes[m].Symlink? then Linked else Arrived(m)
  {
    assert [c][1..] == [];
  }

  /**
   * A path that meets no link leads where its components lead, one entry after the other, from the root if
   * it is absolute and from the directory if not; the errors say where it breaks off.
   */
  lemma PlainPath(fs: Fs, dir: Nid, name: string, follow: bool, directory: bool, links: nat)
    requires Valid(fs) && IsDir(fs, dir)
    ensures var start := if name != "" && name[0] == '/' then fs.root else dir;
            PlainAnswer(fs, Plainly(fs, start, Comps(name)), directory || EndsInSlash(name),
                        Resolve(fs, dir, name, follow, directory, links))
  {
    var start := StartOf(fs, dir, name);
    assert IsDir(fs, start);
    LookupUnfolds(fs, start, name, follow, directory, links);
    hide Lookup, Walk, Comps, LastMeans;
    if Comps(name) != [] && !Plainly(fs, start, Comps(name)).Linked? {
      PlainWalk(fs, start, Comps(name), links);
      var w := Walk(fs, start, Comps(name), links);
      if w.Parent? {
        PlainLast(fs, w.dir, w.last, EndsInSlash(name), follow, directory, w.links, Resolve(fs, dir, name, follow, directory, links));
      }
    }
  }

  // ---- what is found ----

  /** What is found exists; it is a directory where one is asked for, and no link where links are followed. */
  lemma {:induction false} FoundMeans(fs: Fs, dir: Nid, s: string, follow: bool, directory: bool, links: nat)
    requires Valid(fs) && IsDir(fs, dir)
    ensures var a := Lookup(fs, dir, s, follow, directory, links);
            a.Found? ==>
              && a.n in fs.nodes && (directory || EndsInSlash(s) ==> IsDir(fs, a.n))
              && (follow || EndsInSlash(s) ==> !fs.nodes[a.n].Symlink?)
    decreases MAXSYMLINKS - Min(links, MAXSYMLINKS)
  {
    hide Lookup, Walk;
    LookupUnfolds(fs, dir, s, follow, directory, links);
    if Comps(s) != [] {
      WalkEndsInDir(fs, dir, Comps(s), links);
      var w := Walk(fs, dir, Comps(s), links);
      if w.Parent? && WalkAnswer(fs, w.dir, w.last, TypeOf(w.last), follow || EndsInSlash(s), w.links).0.Follow? {
        var body := fs.nodes[fs.entries[(w.dir, w.last)]].body;
        FoundMeans(fs, StartOf(fs, w.dir, body), body, true, directory || EndsInSlash(s), w.links + 1);
      }
    }
  }

  /** The same of a whole resolution. */
  lemma FoundIsDirectory(fs: Fs, dir: Nid, name: string, follow: bool, directory: bool, links: nat)
    requires Valid(fs) && IsDir(fs, dir)
    ensures var a := Resolve(fs, dir, name, follow, directory, links);
            a.Found? ==>
              && a.n in fs.nodes && (directory || EndsInSlash(name) ==> IsDir(fs, a.n))
              && (follow || EndsInSlash(name) ==> !fs.nodes[a.n].Symlink?)
  {
    FoundMeans(fs, StartOf(fs, dir, name), name, follow, directory, links);
  }

  // ---- links ----

  /** A final slash asks for a directory and follows links. */
  lemma SlashMeans(fs: Fs, dir: Nid, s: string, t: string, follow: bool, directory: bool, links: nat)
    requires Valid(fs) && IsDir(fs, dir) && Comps(s) == Comps(t) && EndsInSlash(t)
    ensures Lookup(fs, dir, t, follow, directory, links) == Lookup(fs, dir, s, true, true, links)
  {
    hide Lookup, Walk, Comps;
    LookupUnfolds(fs, dir, s, true, true, links);
    LookupUnfolds(fs, dir, t, follow, directory, links);
    if Comps(s) != [] { WalkEndsInDir(fs, dir, Comps(s), links); }
  }

  /** Only where the walk ends and the final slash matter. */
  lemma LookupByWalk(fs: Fs, d: Nid, e: Nid, s: string, t: string, follow: bool, directory: bool, m: nat, n: nat)
    requires Valid(fs) && IsDir(fs, d) && IsDir(fs, e) && Comps(s) != [] && Comps(t) != []
    requires Walk(fs, d, Comps(s), m) == Walk(fs, e, Comps(t), n) && EndsInSlash(s) == EndsInSlash(t)
    ensures Lookup(fs, d, s, follow, directory, m) == Lookup(fs, e, t, follow, directory, n)
  {
    hide Lookup, Walk, Comps;
    LookupUnfolds(fs, d, s, follow, directory, m);
    LookupUnfolds(fs, e, t, follow, directory, n);
  }

  lemma {:induction false} WalkPrefix(fs: Fs, dir: Nid, comps: seq<string>, rest: seq<string>, links: nat)
    requires Valid(fs) && IsDir(fs, dir) && rest != []
    requires Plainly(fs, dir, comps).Arrived? && IsDir(fs, Plainly(fs, dir, comps).n)
    ensures Walk(fs, dir, comps + rest, links) == Walk(fs, Plainly(fs, dir, comps).n, rest, links)
    decreases |comps|
  {
    if comps == [] {
      assert comps + rest == rest;
    } else {
      var c, more := comps[0], comps[1..];
      var m := Named(fs, dir, c).value;
      assert comps + rest == [c] + (more + rest);
      WalkUnfolds(fs, dir, c, more + rest, links);
      WalkPrefix(fs, m, more, rest, links);
    }
  }

  /** A path that begins with a way to a directory means what its rest means there. */
  lemma PathPrefix(fs: Fs, dir: Nid, p: string, rest: string, follow: bool, directory: bool, links: nat)
    requires Valid(fs) && IsDir(fs, dir) && p != "" && StartsPlain(rest)
    requires var at := Plainly(fs, if p[0] == '/' then fs.root else dir, Comps(p)); at.Arrived? && IsDir(fs, at.n)
    ensures var d := Plainly(fs, if p[0] == '/' then fs.root else dir, Comps(p)).n;
            Resolve(fs, dir, p + "/" + rest, follow, directory, links) == Resolve(fs, d, rest, follow, directory, links)
  {
    var start, s := StartOf(fs, dir, p), p + "/" + rest;
    var d := Plainly(fs, start, Comps(p)).n;
    assert StartOf(fs, dir, s) == start && StartOf(fs, d, rest) == d && IsDir(fs, start);
    CompsConcat(p, rest);
    CompsStep(rest);
    hide Lookup, Walk, Comps, Plainly;
    WalkPrefix(fs, start, Comps(p), Comps(rest), links);
    LookupByWalk(fs, start, d, s, rest, follow, directory, links, links);
  }

  /** `c` names a symbolic link in `dir`. */
  predicate IsLink(fs: Fs, dir: Nid, c: string, body: string) {
    && IsName(c) && c != "." && c != ".."
    && (dir, c) in fs.entries && fs.entries[(dir, c)] in fs.nodes && fs.nodes[fs.entries[(dir, c)]] == Symlink(body)
  }

  /**
   * A path through a link is the path with the name of the link replaced by its body, and one link used
   * up; with no link left it fails.
   */
  lemma LinkReplaced(fs: Fs, dir: Nid, c: string, body: string, rest: string, follow: bool, directory: bool, links: nat)
    requires Valid(fs) && IsDir(fs, dir) && IsLink(fs, dir, c, body) && body != ""
    ensures Resolve(fs, dir, c + "/" + rest, follow, directory, links) ==
              if links >= MAXSYMLINKS then NotFound(ELOOP)
              else Resolve(fs, dir, body + "/" + rest, follow, directory, links + 1)
  {
    var s, t := c + "/" + rest, body + "/" + rest;
    var start := StartOf(fs, dir, body);
    assert StartOf(fs, dir, t) == start && StartOf(fs, dir, s) == dir;
    CompsOne(c);
    CompsConcat(c, rest);
    CompsConcat(body, rest);
    hide Lookup, Walk, Comps;
    if Comps(rest) == [] {
      SlashesEnd(c, rest);
      SlashesEnd(body, rest);
      assert Walk(fs, dir, [c], links) == Parent(dir, c, links) by { LastOne(fs, dir, c, links); }
      LookupUnfolds(fs, dir, s, follow, directory, links);
      if links < MAXSYMLINKS { SlashMeans(fs, start, body, t, follow, directory, links + 1); }
    } else {
      WalkUnfolds(fs, dir, c, Comps(rest), links);
      if links >= MAXSYMLINKS {
        LookupUnfolds(fs, dir, s, follow, directory, links);
      } else {
        LookupByWalk(fs, dir, start, s, t, follow, directory, links, links + 1);
      }
    }
  }

  lemma LastOne(fs: Fs, dir: Nid, c: string, links: nat)
    ensures Walk(fs, dir, [c], links) == Parent(dir, c, links)
  {
  }

  lemma SlashesEnd(s: string, rest: string)
    requires Comps(rest) == []
    ensures EndsInSlash(s + "/" + rest)
  {
    OnlySlashes(rest);
  }

  /** A final link is followed if asked, and else found itself. */
  lemma FinalLink(fs: Fs, dir: Nid, c: string, body: string, follow: bool, directory: bool, links: nat)
    requires Valid(fs) && IsDir(fs, dir) && IsLink(fs, dir, c, body)
    ensures Resolve(fs, dir, c, follow, directory, links) ==
              if !follow then (if directory then NotFound(ENOTDIR) else Found(fs.entries[(dir, c)]))
              else if links >= MAXSYMLINKS then NotFound(ELOOP)
              else Resolve(fs, dir, body, follow, directory, links + 1)
  {
    CompsOne(c);
    LastOne(fs, dir, c, links);
    hide Lookup, Walk, Comps;
    LookupUnfolds(fs, dir, c, follow, directory, links);
  }
}
