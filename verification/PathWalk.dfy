/**
 * The iterative path walk of fs/namei.c: one nameidata with an explicit stack of suspended path
 * strings, without RCU mode, mounts and permissions.
 */
module PathWalk {
  import opened Common
  import opened PathModel

  const EMBEDDED_LEVELS: nat := 2

  datatype LastType = Norm | Dot | DotDot | Root | Bind

  /** A link being followed, and the path string to go on with after it; None for the trailing link. */
  datatype Saved = Saved(link: Nid, name: Option<string>)

  /** What walk_component reports: an error, 0, or 1 for a link to follow. */
  datatype Step = Fail(error: Errno) | Done | Follow

  /** The components of the suspended strings, innermost first, down to the trailing link. */
  function Pending(stack: seq<Saved>): seq<string> {
    if stack == [] || stack[|stack| - 1].name.None? then []
    else Comps(stack[|stack| - 1].name.value) + Pending(stack[..|stack| - 1])
  }

  /** Every suspended string above the trailing link, if there is one, has a component left. */
  predicate StackOk(stack: seq<Saved>, base: nat) {
    && base <= |stack| && base <= 1 && (base == 1 ==> stack[0].name.None?)
    && forall k :: base <= k < |stack| ==> stack[k].name.Some? && StartsPlain(stack[k].name.value)
  }

  /** The string that holds the last component of all. */
  function Outermost(name: string, stack: seq<Saved>, base: nat): string
    requires StackOk(stack, base)
  {
    if |stack| == base then name else stack[base].name.value
  }

  class NameiData {
    const fs: Fs
    var path: Nid
    var last: string
    var lastSlash: bool
    var lastType: LastType
    var follow: bool
    var directory: bool
    var depth: nat
    var totalLinkCount: nat
    var stack: array<Saved>

    constructor (fs: Fs, dir: Nid, follow: bool, directory: bool, links: nat)
      ensures fresh(stack) && this.fs == fs && path == dir && this.follow == follow && this.directory == directory
      ensures depth == 0 && totalLinkCount == links && lastType == Root && Shape()
    {
      this.fs, path, this.follow, this.directory := fs, dir, follow, directory;
      last, lastSlash, lastType, depth, totalLinkCount := "", false, Root, 0, links;
      stack := new Saved[EMBEDDED_LEVELS](_ => Saved(0, None));
    }

    /** The stack has its embedded or its full size, and its depth never outgrows the links followed. */
    ghost predicate Shape()
      reads this
    {
      && stack.Length in {EMBEDDED_LEVELS, MAXSYMLINKS}
      && depth <= stack.Length && depth <= totalLinkCount
    }

    ghost function Slots(): seq<Saved>
      reads this, stack
      requires depth <= stack.Length
    {
      stack[..depth]
    }

    method AllocStack()
      requires Shape()
      modifies this`stack
      ensures Shape() && Slots() == old(Slots())
      ensures stack == old(stack) || fresh(stack)
      ensures depth < MAXSYMLINKS ==> depth < stack.Length
    {
      if depth != EMBEDDED_LEVELS { return; }
      if stack.Length != EMBEDDED_LEVELS { return; }
      var p := new Saved[MAXSYMLINKS](_ => Saved(0, None));
      for i := 0 to EMBEDDED_LEVELS
        invariant stack == old(stack) && Shape() && stack.Length == EMBEDDED_LEVELS
        invariant p[..i] == stack[..i]
      {
        p[i] := stack[i];
      }
      stack := p;
    }

    method PickLink(link: Nid) returns (r: Step)
      requires Shape()
      modifies this`totalLinkCount, this`depth, this`stack, this`path, stack
      ensures Shape() && (stack == old(stack) || fresh(stack))
      ensures totalLinkCount == old(totalLinkCount) + 1
      ensures r == if old(totalLinkCount) >= MAXSYMLINKS then Fail(ELOOP) else Follow
      ensures r.Follow? ==> path == old(path) && depth == old(depth) + 1 && Slots()[..depth - 1] == old(Slots()) && stack[depth - 1].link == link
    {
      totalLinkCount := totalLinkCount + 1;
      if totalLinkCount - 1 >= MAXSYMLINKS {
        path := link;
        return Fail(ELOOP);
      }
      AllocStack();
      stack[depth] := Saved(link, None);
      depth := depth + 1;
      return Follow;
    }

    method PutLink()
      requires Shape() && depth > 0
      modifies this`depth
      ensures Shape() && depth == old(depth) - 1
    {
      depth := depth - 1;
    }

    /** The next component of a path string, and what follows its slashes. */
    method Parse(name: string) returns (rest: string)
      requires StartsPlain(name)
      modifies this`last, this`lastSlash, this`lastType
      ensures Comps(name) == [last] + Comps(rest) && (rest == "" || StartsPlain(rest))
      ensures lastSlash == (CompLen(name) < |name|) && (rest == "" <==> Comps(rest) == [])
      ensures lastType == if last == "." then Dot else if last == ".." then DotDot else Norm
      ensures rest != "" ==> EndsInSlash(rest) == EndsInSlash(name)
      ensures rest == "" ==> lastSlash == EndsInSlash(name)
    {
      var len := 0;
      while len < |name| && name[len] != '/'
        invariant len <= |name| && forall k :: 0 <= k < len ==> name[k] != '/'
      {
        len := len + 1;
      }
      ComponentIs(name, len);
      CompsStep(name);
      last := name[..len];
      lastType := Norm;
      if name[0] == '.' {
        if len == 2 {
          if name[1] == '.' { lastType := DotDot; }
        } else if len == 1 {
          lastType := Dot;
        }
      }
      assert lastType.DotDot? <==> last == "..";
      lastSlash := len < |name|;
      rest := name[len..];
      rest := SkipSlashes(rest);
      if rest == "" { LastComponentEnd(name); }
    }

    /** Look the current component up and step into it; the link it came from is done with unless `more`. */
    method WalkComponent(always: bool, more: bool) returns (r: Step)
      requires Shape() && Valid(fs) && IsDir(fs, path)
      modifies this`totalLinkCount, this`depth, this`stack, this`path, stack
      ensures Shape() && (stack == old(stack) || fresh(stack))
      ensures r == WalkAnswer(fs, old(path), last, lastType, always || follow, old(totalLinkCount)).0
      ensures !r.Fail? ==> path == WalkAnswer(fs, old(path), last, lastType, always || follow, old(totalLinkCount)).1
      ensures r.Done? ==> totalLinkCount == old(totalLinkCount) && Slots() == Popped(old(Slots()), more)
      ensures r.Follow? ==>
        && path == old(path) && totalLinkCount == old(totalLinkCount) + 1 && depth > 0 && Slots()[..depth - 1] == Popped(old(Slots()), more)
        && (old(path), last) in fs.entries && stack[depth - 1].link == fs.entries[(old(path), last)]
        && stack[depth - 1].link in fs.nodes && fs.nodes[stack[depth - 1].link].Symlink?
    {
      if !lastType.Norm? {
        if lastType.DotDot? { path := fs.up[path]; }
        if !more && depth > 0 { PutLink(); }
        return Done;
      }
      if (path, last) !in fs.entries { return Fail(ENOENT); }
      var n := fs.entries[(path, last)];
      r := StepInto(n, always, more);
    }

    method StepInto(n: Nid, always: bool, more: bool) returns (r: Step)
      requires Shape() && n in fs.nodes
      modifies this`totalLinkCount, this`depth, this`stack, this`path, stack
      ensures Shape() && (stack == old(stack) || fresh(stack))
      ensures r == if !fs.nodes[n].Symlink? || !(always || follow) then Done
                   else if old(totalLinkCount) >= MAXSYMLINKS then Fail(ELOOP) else Follow
      ensures r.Done? ==> path == n && totalLinkCount == old(totalLinkCount) && Slots() == Popped(old(Slots()), more)
      ensures r.Follow? ==>
        && path == old(path) && totalLinkCount == old(totalLinkCount) + 1 && depth > 0
        && Slots()[..depth - 1] == Popped(old(Slots()), more) && stack[depth - 1].link == n
    {
      if !more && depth > 0 { PutLink(); }
      if !fs.nodes[n].Symlink? || !(always || follow) {
        path := n;
        return Done;
      }
      r := PickLink(n);
    }

    /** The body of the link on top of the stack, from the root if it is absolute; None if nothing is left of it. */
    method GetLink() returns (s: Option<string>)
      requires Shape() && depth > 0 && stack[depth - 1].link in fs.nodes && fs.nodes[stack[depth - 1].link].Symlink?
      modifies this`lastType, this`path
      ensures var body := fs.nodes[stack[depth - 1].link].body;
              path == (if body != "" && body[0] == '/' then fs.root else old(path)) && lastType == Bind
      ensures var body := fs.nodes[stack[depth - 1].link].body;
              if s.None? then Comps(body) == []
              else StartsPlain(s.value) && Comps(s.value) == Comps(body) && EndsInSlash(s.value) == EndsInSlash(body)
    {
      lastType := Bind;
      var res := fs.nodes[stack[depth - 1].link].body;
      if res != "" && res[0] == '/' {
        path := fs.root;
        res := SkipSlashes(res);
      }
      return if res == "" then None else Some(res);
    }

    /** Go on with the body of the link on top of the stack, which `last` named, and with `next` after it. */
    method Descend(next: string, ghost q: seq<Saved>) returns (s: Option<string>)
      requires Shape() && depth > 0 && stack[depth - 1].link in fs.nodes && fs.nodes[stack[depth - 1].link].Symlink?
      requires (path, last) in fs.entries && fs.entries[(path, last)] == stack[depth - 1].link && Slots()[..depth - 1] == q
      modifies this`depth, this`path, this`lastType, stack
      ensures Shape() && JumpsTo(fs, old(path), last, if s.None? then "" else s.value, path)
      ensures s.None? ==> Slots() == q
      ensures s.Some? ==> StartsPlain(s.value) && Slots() == q + [Saved(old(stack[depth - 1].link), Some(next))]
    {
      hide EndsInSlash;
      assert Comps("") == [];
      s := GetLink();
      if s.None? {
        PutLink();
      } else {
        stack[depth - 1] := stack[depth - 1].(name := Some(next));
      }
    }

    /**
     * Parse a component and walk it, unless it is the last of all.  `next` is the string to go on with
     * and `q` the stack under it.
     */
    method Fetch(name: string, ghost base: nat) returns (next: string, step: Option<Step>, ghost q: seq<Saved>)
      requires Shape() && Valid(fs) && IsDir(fs, path) && StackOk(Slots(), base) && StartsPlain(name)
      modifies this`totalLinkCount, this`depth, this`stack, this`path, this`last, this`lastSlash, this`lastType, stack
      ensures Shape() && (stack == old(stack) || fresh(stack)) && lastType == TypeOf(last)
      ensures step.None? ==>
        && path == old(path) && totalLinkCount == old(totalLinkCount) && Slots() == old(Slots()) && depth == base
        && Comps(name) + Pending(old(Slots())) == [last] && lastSlash == EndsInSlash(Outermost(name, old(Slots()), base))
      ensures step.Some? ==>
        && Fetched(name, old(Slots()), base, last, next, q)
        && step.value == WalkAnswer(fs, old(path), last, lastType, true, old(totalLinkCount)).0
        && (!step.value.Fail? ==> path == WalkAnswer(fs, old(path), last, lastType, true, old(totalLinkCount)).1)
      ensures step == Some(Done) ==> totalLinkCount == old(totalLinkCount) && Slots() == q
      ensures step == Some(Follow) ==>
        && path == old(path) && totalLinkCount == old(totalLinkCount) + 1 && depth > 0 && Slots()[..depth - 1] == q
        && (old(path), last) in fs.entries && stack[depth - 1].link == fs.entries[(old(path), last)]
        && stack[depth - 1].link in fs.nodes && fs.nodes[stack[depth - 1].link].Symlink?
    {
      hide Fetched, WalkAnswer, Valid, CompLen, StartsPlain, Comps, EndsInSlash;
      ghost var slots := Slots();
      q := slots;
      next := Parse(name);
      var r;
      if next == "" {
        if depth == 0 || stack[depth - 1].name.None? { return next, None, q; }
        next := stack[depth - 1].name.value;
        RemainingIs(name, last, next, slots, base, false);
        q := Popped(slots, false);
        r := WalkComponent(true, false);
      } else {
        RemainingIs(name, last, next, slots, base, true);
        r := WalkComponent(true, true);
      }
      return next, Some(r), q;
    }

    /** One turn of the loop of link_path_walk. */
    method Advance(name: string, ghost base: nat) returns (m: Move)
      requires Shape() && Valid(fs) && IsDir(fs, path) && StackOk(Slots(), base) && StartsPlain(name)
      modifies this`totalLinkCount, this`depth, this`stack, this`path, this`last, this`lastSlash, this`lastType, stack
      ensures Shape() && (stack == old(stack) || fresh(stack))
      ensures MoveOk(fs, old(path), old(totalLinkCount), name, old(Slots()), base, m, path, totalLinkCount, Slots())
      ensures m.Finished? ==>
        && m.last == last && lastType == TypeOf(last) && IsDir(fs, path)
        && lastSlash == EndsInSlash(Outermost(name, old(Slots()), base))
    {
      hide MoveOk, Fetched, Walk, WalkAnswer, EndsInSlash, Comps, JumpsTo, Outermost, StartsPlain;
      ghost var dir, links, slots := path, totalLinkCount, Slots();
      var next, step, q := Fetch(name, base);
      if step.None? {
        MoveFinishes(fs, dir, links, name, slots, base, last);
        return Finished(last);
      }
      if step.value.Fail? {
        MoveStops(fs, dir, links, name, slots, base, last, next, q, step.value.error, path, totalLinkCount, Slots());
        return Stopped(step.value.error);
      }
      if step.value.Follow? {
        ghost var link := stack[depth - 1].link;
        var s := Descend(next, q);
        if s.Some? {
          MoveDescends(fs, dir, links, name, slots, base, last, next, q, s.value, path, link);
          return GoOn(s.value);
        }
        MoveGoesOn(fs, dir, links, name, slots, base, last, next, q, path, totalLinkCount);
      } else if IsDir(fs, path) {
        MoveGoesOn(fs, dir, links, name, slots, base, last, next, q, path, totalLinkCount);
      } else {
        MoveStops(fs, dir, links, name, slots, base, last, next, q, ENOTDIR, path, totalLinkCount, Slots());
      }
      if !IsDir(fs, path) { return Stopped(ENOTDIR); }
      return GoOn(next);
    }

    /** Resolve all but the last component of a path string, starting at `path`. */
    method LinkPathWalk(s: string) returns (err: Option<Errno>)
      requires Shape() && Valid(fs) && IsDir(fs, path) && StackOk(Slots(), depth)
      modifies this`totalLinkCount, this`depth, this`stack, this`path, this`last, this`lastSlash, this`lastType, stack
      ensures Shape() && (stack == old(stack) || fresh(stack))
      ensures err.None? ==> IsDir(fs, path) && depth == old(depth)
      ensures Comps(s) == [] ==>
        err.None? && path == old(path) && lastType == old(lastType) && totalLinkCount == old(totalLinkCount)
      ensures Comps(s) != [] ==>
        match Walk(fs, old(path), Comps(s), old(totalLinkCount))
        case Failed(e) => err == Some(e)
        case Parent(d, c, links) =>
          && err.None? && path == d && last == c && totalLinkCount == links
          && lastType == TypeOf(c) && lastSlash == EndsInSlash(s)
    {
      var name := SkipSlashes(s);
      if name == "" { return None; }
      ghost var base := depth;
      assert Pending(Slots()) == [];
      assert Comps(name) + [] == Comps(name);
      while true
        invariant Shape() && (stack == old(stack) || fresh(stack))
        invariant IsDir(fs, path) && StackOk(Slots(), base) && StartsPlain(name)
        invariant EndsInSlash(Outermost(name, Slots(), base)) == EndsInSlash(s)
        invariant Comps(name) + Pending(Slots()) != []
        invariant Walk(fs, path, Comps(name) + Pending(Slots()), totalLinkCount) == Walk(fs, old(path), Comps(s), old(totalLinkCount))
        decreases MAXSYMLINKS - Min(totalLinkCount, MAXSYMLINKS), |Comps(name) + Pending(Slots())|
      {
        var m := Advance(name, base);
        match m {
          case Finished(_) => return None;
          case Stopped(e) => return Some(e);
          case GoOn(next) => name := next;
        }
      }
    }

    method LookupLast() returns (r: Step)
      requires Shape() && Valid(fs) && IsDir(fs, path) && depth <= 1
      modifies this`totalLinkCount, this`depth, this`stack, this`path, this`follow, this`directory, stack
      ensures Shape() && (stack == old(stack) || fresh(stack))
      ensures var slash := lastType.Norm? && lastSlash;
        && follow == (old(follow) || slash) && directory == (old(directory) || slash)
        && r == WalkAnswer(fs, old(path), last, lastType, follow, old(totalLinkCount)).0
        && (!r.Fail? ==> path == WalkAnswer(fs, old(path), last, lastType, follow, old(totalLinkCount)).1)
      ensures r.Follow? ==>
        && totalLinkCount == old(totalLinkCount) + 1 && depth == 1
        && (old(path), last) in fs.entries && stack[0].link == fs.entries[(old(path), last)]
        && stack[0].link in fs.nodes && fs.nodes[stack[0].link].Symlink?
    {
      if lastType.Norm? && lastSlash {
        follow, directory := true, true;
      }
      r := WalkComponent(false, false);
    }

    method TrailingSymlink() returns (s: string)
      requires Shape() && depth == 1 && stack[0].link in fs.nodes && fs.nodes[stack[0].link].Symlink?
      modifies this`path, this`lastType, stack
      ensures stack[0] == Saved(old(stack[0].link), None)
      ensures var body := fs.nodes[old(stack[0].link)].body;
        && path == StartOf(fs, old(path), body) && lastType == Bind
        && Comps(s) == Comps(body) && (Comps(s) != [] ==> EndsInSlash(s) == EndsInSlash(body))
    {
      stack[0] := stack[0].(name := None);
      var res := GetLink();
      return if res.None? then "" else res.value;
    }

    /** One turn of the loop of path_lookupat: an answer, or the body of a trailing link to go on with. */
    method LookupTurn(s: string) returns (a: Option<Answer>, t: string)
      requires Shape() && Valid(fs) && IsDir(fs, path) && !lastType.Norm? && !lastType.DotDot? && StackOk(Slots(), depth)
      modifies this, stack
      ensures Shape() && (stack == old(stack) || fresh(stack))
      ensures a.Some? ==> a.value == Lookup(fs, old(path), s, old(follow), old(directory), old(totalLinkCount))
      ensures a.None? ==>
        && IsDir(fs, path) && lastType.Bind? && depth == 1 && stack[0].name.None?
        && old(totalLinkCount) < totalLinkCount <= MAXSYMLINKS
        && Lookup(fs, path, t, follow, directory, totalLinkCount)
           == Lookup(fs, old(path), s, old(follow), old(directory), old(totalLinkCount))
    {
      hide Lookup, Walk, Comps, LastMeans;
      ghost var target := Lookup(fs, path, s, follow, directory, totalLinkCount);
      LookupUnfolds(fs, path, s, follow, directory, totalLinkCount);
      var err := LinkPathWalk(s);
      if err.Some? { return Some(NotFound(err.value)), ""; }
      if Comps(s) == [] {
        LastMeansHere(fs, path, last, lastType, lastSlash, follow, directory, totalLinkCount);
      }
      a, t := LookupStep(target);
    }

    /** The last component, given what its step means for the whole path. */
    method LookupStep(ghost target: Answer) returns (a: Option<Answer>, t: string)
      requires Shape() && Valid(fs) && IsDir(fs, path) && depth <= 1
      requires LastMeans(fs, path, last, lastType, lastSlash, follow, directory, totalLinkCount, target)
      modifies this, stack
      ensures Shape() && (stack == old(stack) || fresh(stack))
      ensures a.Some? ==> a.value == target
      ensures a.None? ==>
        && IsDir(fs, path) && lastType.Bind? && depth == 1 && stack[0].name.None?
        && old(totalLinkCount) < totalLinkCount <= MAXSYMLINKS
        && Lookup(fs, path, t, follow, directory, totalLinkCount) == target
    {
      hide Lookup;
      t := "";
      var r := LookupLast();
      if r.Fail? { return Some(NotFound(r.error)), t; }
      if r.Done? { return Some(Checked(fs, path, directory)), t; }
      t := FollowLast();
      return None, t;
    }

    /** Going on with the body of the final link means the same as looking that body up. */
    method FollowLast() returns (t: string)
      requires Shape() && Valid(fs) && IsDir(fs, path) && depth == 1
      requires stack[0].link in fs.nodes && fs.nodes[stack[0].link].Symlink?
      modifies this`path, this`lastType, stack
      ensures IsDir(fs, path) && lastType.Bind? && stack[0].name.None?
      ensures var body := fs.nodes[old(stack[0].link)].body;
              Lookup(fs, path, t, follow, directory, totalLinkCount)
              == Lookup(fs, StartOf(fs, old(path), body), body, follow, directory, totalLinkCount)
    {
      hide Lookup, Comps;
      ghost var body := fs.nodes[stack[0].link].body;
      t := TrailingSymlink();
      LookupBySplit(fs, path, t, body, follow, directory, totalLinkCount);
    }
  }

  /** `target` is what the step of walk_component for the last component leads to. */
  ghost predicate LastMeans(fs: Fs, d: Nid, c: string, lastType: LastType, endSlash: bool, follow: bool, directory: bool,
                            used: nat, target: Answer)
  {
    var slash := lastType.Norm? && endSlash;
    var (step, n) := WalkAnswer(fs, d, c, lastType, follow || slash, used);
    match step
    case Fail(e) => target == NotFound(e)
    case Done => target == Checked(fs, n, directory || slash)
    case Follow =>
      && used < MAXSYMLINKS && (d, c) in fs.entries && fs.entries[(d, c)] in fs.nodes
      && fs.nodes[fs.entries[(d, c)]].Symlink?
      && var body := fs.nodes[fs.entries[(d, c)]].body;
         target == Lookup(fs, StartOf(fs, d, body), body, follow || slash, directory || slash, used + 1)
  }

  /** Without a component the answer is the directory itself. */
  lemma LastMeansHere(fs: Fs, d: Nid, c: string, lastType: LastType, endSlash: bool, follow: bool, directory: bool, used: nat)
    ensures !lastType.Norm? && !lastType.DotDot? ==>
      LastMeans(fs, d, c, lastType, endSlash, follow, directory, used, Checked(fs, d, directory))
  {
  }

  /** After the walk to the parent, the recursive definition takes the step of walk_component for the last component. */
  lemma LookupUnfolds(fs: Fs, dir: Nid, s: string, follow: bool, directory: bool, links: nat)
    requires Valid(fs) && IsDir(fs, dir)
    ensures var a := Lookup(fs, dir, s, follow, directory, links);
            if Comps(s) == [] then a == Checked(fs, dir, directory)
            else
              match Walk(fs, dir, Comps(s), links)
              case Failed(e) => a == NotFound(e)
              case Parent(d, c, used) =>
                links <= used && LastMeans(fs, d, c, TypeOf(c), EndsInSlash(s), follow, directory, used, a)
  {
    if Comps(s) != [] {
      WalkUses(fs, dir, Comps(s), links);
      WalkEndsInDir(fs, dir, Comps(s), links);
    }
  }

  lemma {:induction false} WalkEndsInDir(fs: Fs, dir: Nid, comps: seq<string>, links: nat)
    requires Valid(fs) && IsDir(fs, dir) && comps != []
    ensures var w := Walk(fs, dir, comps, links); w.Parent? ==> IsDir(fs, w.dir)
    decreases MAXSYMLINKS - Min(links, MAXSYMLINKS), |comps|
  {
    var last, rest := comps[0], comps[1..];
    if rest != [] {
      assert comps == [last] + rest;
      WalkUnfolds(fs, dir, last, rest, links);
      var (step, n) := WalkAnswer(fs, dir, last, TypeOf(last), true, links);
      if step.Done? && IsDir(fs, n) {
        WalkEndsInDir(fs, n, rest, links);
      } else if step.Follow? {
        var body := fs.nodes[fs.entries[(dir, last)]].body;
        WalkEndsInDir(fs, StartOf(fs, dir, body), Comps(body) + rest, links + 1);
      }
    }
  }

  /** Only the components and a final slash of a path string matter. */
  lemma LookupBySplit(fs: Fs, dir: Nid, s: string, t: string, follow: bool, directory: bool, links: nat)
    requires Comps(s) == Comps(t) && (Comps(s) != [] ==> EndsInSlash(s) == EndsInSlash(t))
    ensures Lookup(fs, dir, s, follow, directory, links) == Lookup(fs, dir, t, follow, directory, links)
  {
  }

  /** path_lookupat gives what the recursive definition gives, for every path and every tree. */
  method PathLookupat(fs: Fs, dir: Nid, name: string, follow: bool, directory: bool, links: nat) returns (r: Answer)
    requires Valid(fs) && IsDir(fs, dir)
    ensures r == Resolve(fs, dir, name, follow, directory, links)
  {
    var start := if name != "" && name[0] == '/' then fs.root else dir;
    var nd := new NameiData(fs, start, follow, directory, links);
    var s := name;
    while true
      invariant fresh(nd) && fresh(nd.stack) && nd.fs == fs && nd.Shape() && IsDir(fs, nd.path)
      invariant !nd.lastType.Norm? && !nd.lastType.DotDot? && StackOk(nd.Slots(), nd.depth)
      invariant Lookup(fs, nd.path, s, nd.follow, nd.directory, nd.totalLinkCount) == Lookup(fs, start, name, follow, directory, links)
      decreases MAXSYMLINKS - Min(nd.totalLinkCount, MAXSYMLINKS)
    {
      var a, t := nd.LookupTurn(s);
      if a.Some? { return a.value; }
      s := t;
    }
  }

  /** `last` is the next component, `next` and the stack `q` hold what comes after it. */
  ghost predicate Fetched(name: string, slots: seq<Saved>, base: nat, last: string, next: string, q: seq<Saved>)
    requires StackOk(slots, base)
  {
    && StartsPlain(next) && StackOk(q, base)
    && Comps(name) + Pending(slots) == [last] + (Comps(next) + Pending(q))
    && EndsInSlash(Outermost(next, q, base)) == EndsInSlash(Outermost(name, slots, base))
  }

  lemma MoveFinishes(fs: Fs, dir: Nid, links: nat, name: string, slots: seq<Saved>, base: nat, last: string)
    requires StackOk(slots, base) && StartsPlain(name) && |slots| == base && Comps(name) + Pending(slots) == [last]
    ensures MoveOk(fs, dir, links, name, slots, base, Finished(last), dir, links, slots)
  {
  }

  lemma MoveStops(fs: Fs, dir: Nid, links: nat, name: string, slots: seq<Saved>, base: nat,
                  last: string, next: string, q: seq<Saved>, e: Errno, dir1: Nid, links1: nat, slots1: seq<Saved>)
    requires Valid(fs) && IsDir(fs, dir) && StackOk(slots, base) && StartsPlain(name) && Fetched(name, slots, base, last, next, q)
    requires var (step, n) := WalkAnswer(fs, dir, last, TypeOf(last), true, links);
             step == Fail(e) || (step.Done? && !IsDir(fs, n) && e == ENOTDIR)
    ensures MoveOk(fs, dir, links, name, slots, base, Stopped(e), dir1, links1, slots1)
  {
  }

  lemma MoveGoesOn(fs: Fs, dir: Nid, links: nat, name: string, slots: seq<Saved>, base: nat,
                   last: string, next: string, q: seq<Saved>, dir1: Nid, links1: nat)
    requires Valid(fs) && IsDir(fs, dir) && StackOk(slots, base) && StartsPlain(name) && Fetched(name, slots, base, last, next, q)
    requires var (step, n) := WalkAnswer(fs, dir, last, TypeOf(last), true, links);
             || (step.Done? && dir1 == n && IsDir(fs, n) && links1 == links)
             || (step.Follow? && JumpsTo(fs, dir, last, "", dir1) && links1 == links + 1)
    ensures IsDir(fs, dir1) && MoveOk(fs, dir, links, name, slots, base, GoOn(next), dir1, links1, q)
  {
    CompsStep(next);
    var rest := Comps(next) + Pending(q);
    WalkUnfolds(fs, dir, last, rest, links);
    assert [] + rest == rest;
  }

  /** `last` names a link whose body has the components of `s` and starts in `dir1`. */
  predicate JumpsTo(fs: Fs, dir: Nid, last: string, s: string, dir1: Nid) {
    && (dir, last) in fs.entries && fs.entries[(dir, last)] in fs.nodes && fs.nodes[fs.entries[(dir, last)]].Symlink?
    && Comps(fs.nodes[fs.entries[(dir, last)]].body) == Comps(s)
    && dir1 == StartOf(fs, dir, fs.nodes[fs.entries[(dir, last)]].body)
  }

  lemma MoveDescends(fs: Fs, dir: Nid, links: nat, name: string, slots: seq<Saved>, base: nat,
                     last: string, next: string, q: seq<Saved>, s: string, dir1: Nid, link: Nid)
    requires Valid(fs) && IsDir(fs, dir) && StackOk(slots, base) && StartsPlain(name) && Fetched(name, slots, base, last, next, q)
    requires StartsPlain(s) && WalkAnswer(fs, dir, last, TypeOf(last), true, links).0 == Follow
    requires JumpsTo(fs, dir, last, s, dir1)
    ensures MoveOk(fs, dir, links, name, slots, base, GoOn(s), dir1, links + 1, q + [Saved(link, Some(next))])
  {
    CompsStep(next);
    CompsStep(s);
    WalkUnfolds(fs, dir, last, Comps(next) + Pending(q), links);
    PushedOk(q, base, link, next);
  }

  function TypeOf(last: string): LastType { if last == "." then Dot else if last == ".." then DotDot else Norm }

  datatype Move = Finished(last: string) | Stopped(error: Errno) | GoOn(name: string)

  /** One turn keeps the meaning of what remains, or ends with it. */
  ghost predicate MoveOk(fs: Fs, dir: Nid, links: nat, name: string, slots: seq<Saved>, base: nat,
                         m: Move, dir1: Nid, links1: nat, slots1: seq<Saved>)
    requires StackOk(slots, base) && StartsPlain(name)
  {
    var before := Comps(name) + Pending(slots);
    match m
    case Finished(last) => before != [] && Walk(fs, dir, before, links) == Parent(dir1, last, links1) && |slots1| == base
    case Stopped(e) => before != [] && Walk(fs, dir, before, links) == Failed(e)
    case GoOn(next) =>
      && StartsPlain(next) && StackOk(slots1, base) && IsDir(fs, dir1)
      && EndsInSlash(Outermost(next, slots1, base)) == EndsInSlash(Outermost(name, slots, base))
      && var after := Comps(next) + Pending(slots1);
         && before != [] && after != [] && Walk(fs, dir, before, links) == Walk(fs, dir1, after, links1)
         && ((links1 == links && |after| < |before|) || links < links1 <= MAXSYMLINKS)
  }

  lemma ConcatAssoc(a: seq<string>, b: seq<string>, c: seq<string>)
    ensures (a + b) + c == a + (b + c)
  {
  }

  lemma PoppedOk(slots: seq<Saved>, base: nat)
    requires StackOk(slots, base) && |slots| > base
    ensures StackOk(Popped(slots, false), base)
    ensures Pending(slots) == Comps(slots[|slots| - 1].name.value) + Pending(Popped(slots, false))
  {
  }

  /** What remains after the current component: the rest of its string, or of the string that is resumed. */
  lemma RemainingIs(name: string, last: string, next: string, slots: seq<Saved>, base: nat, more: bool)
    requires StackOk(slots, base) && StartsPlain(name) && StartsPlain(next)
    requires if more then Comps(name) == [last] + Comps(next) && EndsInSlash(next) == EndsInSlash(name)
             else Comps(name) == [last] && |slots| > base && slots[|slots| - 1].name == Some(next)
    ensures StackOk(Popped(slots, more), base) && Fetched(name, slots, base, last, next, Popped(slots, more))
  {
    if more {
      ConcatAssoc([last], Comps(next), Pending(slots));
    } else {
      PoppedOk(slots, base);
    }
  }

  /** Pushing a link: its body comes first, then what remained. */
  lemma PushedOk(slots: seq<Saved>, base: nat, link: Nid, next: string)
    requires StackOk(slots, base) && StartsPlain(next)
    ensures var r := slots + [Saved(link, Some(next))];
            StackOk(r, base) && Pending(r) == Comps(next) + Pending(slots)
    ensures forall name :: Outermost(name, slots + [Saved(link, Some(next))], base) == Outermost(next, slots, base)
  {
  }

  /** One component of the recursive definition is one step of walk_component. */
  lemma WalkUnfolds(fs: Fs, dir: Nid, last: string, rest: seq<string>, links: nat)
    requires Valid(fs) && IsDir(fs, dir) && rest != []
    ensures var (step, n) := WalkAnswer(fs, dir, last, TypeOf(last), true, links);
            var w := Walk(fs, dir, [last] + rest, links);
            match step
            case Fail(e) => w == Failed(e)
            case Done => w == if IsDir(fs, n) then Walk(fs, n, rest, links) else Failed(ENOTDIR)
            case Follow =>
              && links < MAXSYMLINKS && (dir, last) in fs.entries && fs.entries[(dir, last)] in fs.nodes
              && fs.nodes[fs.entries[(dir, last)]].Symlink?
              && var body := fs.nodes[fs.entries[(dir, last)]].body;
                 Comps(body) + rest != [] && IsDir(fs, StartOf(fs, dir, body))
                 && w == Walk(fs, StartOf(fs, dir, body), Comps(body) + rest, links + 1)
  {
  }

  /** The step walk_component takes, by the tree alone. */
  function WalkAnswer(fs: Fs, dir: Nid, last: string, lastType: LastType, follow: bool, links: nat): (Step, Nid) {
    if !lastType.Norm? then (Done, if lastType.DotDot? && dir in fs.up then fs.up[dir] else dir)
    else if (dir, last) !in fs.entries || fs.entries[(dir, last)] !in fs.nodes then (Fail(ENOENT), dir)
    else if !fs.nodes[fs.entries[(dir, last)]].Symlink? || !follow then (Done, fs.entries[(dir, last)])
    else if links >= MAXSYMLINKS then (Fail(ELOOP), dir)
    else (Follow, dir)
  }

  function Popped(stack: seq<Saved>, more: bool): seq<Saved> {
    if more || stack == [] then stack else stack[..|stack| - 1]
  }

  lemma {:induction false} ComponentIs(s: string, n: nat)
    requires n <= |s| && (forall k :: 0 <= k < n ==> s[k] != '/') && (n < |s| ==> s[n] == '/')
    ensures CompLen(s) == n
  {
  }

  method SkipSlashes(s: string) returns (r: string)
    ensures Comps(r) == Comps(s) && (r == "" || StartsPlain(r)) && (r == "" <==> Comps(s) == [])
    ensures r != "" ==> EndsInSlash(r) == EndsInSlash(s)
  {
    r := s;
    while r != "" && r[0] == '/'
      invariant Comps(r) == Comps(s)
      invariant r != "" ==> EndsInSlash(r) == EndsInSlash(s)
      decreases |r|
    {
      r := r[1..];
    }
  }
}
