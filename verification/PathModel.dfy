/**
 * What a path name means in a fixed tree (section 4.13 of POSIX.1-2017 XBD, with the limits of
 * fs/namei.c): the body of a symbolic link is put in front of the components that remain.
 */
module PathModel {
  import opened Common

  type Nid = nat

  const MAXSYMLINKS: nat := 40

  datatype Node = Directory | File | Symlink(body: string)

  datatype Errno = ENOENT | ENOTDIR | ELOOP

  /** `entries` gives the objects named in a directory, `up` its parent. */
  datatype Fs = Fs(root: Nid, nodes: map<Nid, Node>, entries: map<(Nid, string), Nid>, up: map<Nid, Nid>)

  predicate IsDir(fs: Fs, n: Nid) { n in fs.nodes && fs.nodes[n].Directory? }

  ghost predicate Valid(fs: Fs) {
    && IsDir(fs, fs.root)
    && (forall k :: k in fs.entries ==> fs.entries[k] in fs.nodes)
    && (forall d :: IsDir(fs, d) ==> d in fs.up)
    && (forall d :: d in fs.up ==> IsDir(fs, fs.up[d]))
  }

  // ---- path strings ----

  /** The length of the component that `s` starts with. */
  function CompLen(s: string): (n: nat)
    ensures n <= |s| && '/' !in s[..n] && (n < |s| ==> s[n] == '/')
  {
    if s == "" || s[0] == '/' then 0
    else
      var n := CompLen(s[1..]);
      assert s[..n + 1] == [s[0]] + s[1..][..n];
      n + 1
  }

  /** The components of a path string. */
  function Comps(s: string): seq<string> {
    if s == "" then []
    else if s[0] == '/' then Comps(s[1..])
    else [s[..CompLen(s)]] + Comps(s[CompLen(s)..])
  }

  predicate EndsInSlash(s: string) { s != "" && s[|s| - 1] == '/' }

  predicate StartsPlain(s: string) { s != "" && s[0] != '/' }

  // ---- resolution ----

  /** The directory and the name the last component is to be looked up with, or an error. */
  datatype Walked = Parent(dir: Nid, last: string, links: nat) | Failed(error: Errno)

  function StartOf(fs: Fs, dir: Nid, body: string): Nid { if body != "" && body[0] == '/' then fs.root else dir }

  /** Resolve all but the last of `comps`, splicing each symbolic link into what remains. */
  function Walk(fs: Fs, dir: Nid, comps: seq<string>, links: nat): (w: Walked)
    requires comps != []
    decreases MAXSYMLINKS - Min(links, MAXSYMLINKS), |comps|
  {
    var c, rest := comps[0], comps[1..];
    if rest == [] then Parent(dir, c, links)
    else if c == "." then Walk(fs, dir, rest, links)
    else if c == ".." then (if dir in fs.up then Walk(fs, fs.up[dir], rest, links) else Failed(ENOENT))
    else if (dir, c) !in fs.entries || fs.entries[(dir, c)] !in fs.nodes then Failed(ENOENT)
    else
      var n := fs.entries[(dir, c)];
      match fs.nodes[n]
      case Directory => Walk(fs, n, rest, links)
      case File => Failed(ENOTDIR)
      case Symlink(body) =>
        if links >= MAXSYMLINKS then Failed(ELOOP)
        else Walk(fs, StartOf(fs, dir, body), Comps(body) + rest, links + 1)
  }

  datatype Answer = Found(n: Nid) | NotFound(error: Errno)

  /** Resolve a whole path; a trailing slash asks for a directory and follows a final link. */
  function Lookup(fs: Fs, dir: Nid, s: string, follow: bool, directory: bool, links: nat): (a: Answer)
    decreases MAXSYMLINKS - Min(links, MAXSYMLINKS)
  {
    if Comps(s) == [] then Checked(fs, dir, directory)
    else
      match Walk(fs, dir, Comps(s), links)
      case Failed(e) => NotFound(e)
      case Parent(d, c, used) =>
        if c == "." then Checked(fs, d, directory)
        else if c == ".." then (if d in fs.up then Checked(fs, fs.up[d], directory) else NotFound(ENOENT))
        else if (d, c) !in fs.entries || fs.entries[(d, c)] !in fs.nodes then NotFound(ENOENT)
        else
          var n := fs.entries[(d, c)];
          var slash := EndsInSlash(s);
          if !fs.nodes[n].Symlink? || !(follow || slash) then Checked(fs, n, directory || slash)
          else if used >= MAXSYMLINKS then NotFound(ELOOP)
          else
            WalkUses(fs, dir, Comps(s), links);
            Lookup(fs, StartOf(fs, d, fs.nodes[n].body), fs.nodes[n].body, follow || slash, directory || slash, used + 1)
  }

  /** Resolve a path as a process does: from the root if it is absolute, else from its directory. */
  function Resolve(fs: Fs, dir: Nid, name: string, follow: bool, directory: bool, links: nat): Answer {
    Lookup(fs, StartOf(fs, dir, name), name, follow, directory, links)
  }

  function Checked(fs: Fs, n: Nid, directory: bool): Answer {
    if directory && !IsDir(fs, n) then NotFound(ENOTDIR) else Found(n)
  }

  /** Links are only ever used up. */
  lemma {:induction false} WalkUses(fs: Fs, dir: Nid, comps: seq<string>, links: nat)
    requires comps != []
    ensures var w := Walk(fs, dir, comps, links); w.Parent? ==> links <= w.links
    decreases MAXSYMLINKS - Min(links, MAXSYMLINKS), |comps|
  {
    var c, rest := comps[0], comps[1..];
    if rest != [] && c == "." {
      WalkUses(fs, dir, rest, links);
    } else if rest != [] && c == ".." && dir in fs.up {
      WalkUses(fs, fs.up[dir], rest, links);
    } else if rest != [] && c != ".." && (dir, c) in fs.entries && fs.entries[(dir, c)] in fs.nodes {
      var n := fs.entries[(dir, c)];
      match fs.nodes[n] {
        case Directory => WalkUses(fs, n, rest, links);
        case File =>
        case Symlink(body) =>
          if links < MAXSYMLINKS { WalkUses(fs, StartOf(fs, dir, body), Comps(body) + rest, links + 1); }
      }
    }
  }

  // ---- lemmas on path strings ----

  lemma CompsStep(s: string)
    requires StartsPlain(s)
    ensures CompLen(s) > 0 && Comps(s) == [s[..CompLen(s)]] + Comps(s[CompLen(s)..])
  {
  }

  /** The last component of a path reaches to its end exactly if the path does not end in a slash. */
  lemma LastComponentEnd(s: string)
    requires StartsPlain(s) && Comps(s[CompLen(s)..]) == []
    ensures CompLen(s) < |s| <==> EndsInSlash(s)
  {
    var n := CompLen(s);
    if n < |s| {
      OnlySlashes(s[n..]);
    } else {
      assert s[..n] == s;
    }
  }

  lemma {:induction false} OnlySlashes(s: string)
    requires Comps(s) == []
    ensures s != "" ==> EndsInSlash(s)
  {
    if s != "" && s[0] == '/' { OnlySlashes(s[1..]); }
  }
}
