// The path rewriter itself (file_access.cpp): it edits the path in place and keeps
// indices into it, and does to the string what Resolve does to components.

module PathResolutions {
  import opened Common
  import opened Paths

  // ----- the string operations it uses

  /** Position of the first slash at or after from, or the length. */
  function FindFirst(s: string, from: nat): (r: nat)
    requires from <= |s|
    ensures from <= r <= |s| && (r < |s| ==> s[r] == SLASH) && forall i :: from <= i < r ==> s[i] != SLASH
    decreases |s| - from
  {
    if from == |s| || s[from] == SLASH then from else FindFirst(s, from + 1)
  }

  /** Position of the last slash at or before pos; -1 if there is none. */
  function FindLast(s: string, pos: nat): (r: int)
    ensures -1 <= r < |s| && r <= pos && (r >= 0 ==> s[r] == SLASH)
    ensures forall i :: r < i < |s| && i <= pos ==> s[i] != SLASH
    decreases pos
  {
    if pos < |s| && s[pos] == SLASH then pos else if pos == 0 then -1 else FindLast(s, pos - 1)
  }

  /** Removes n characters from position at on, or as many as there are. */
  function Erase(s: string, at: nat, n: nat): string
    requires at <= |s|
  {
    if at + n >= |s| then s[..at] else s[..at] + s[at + n..]
  }

  // ----- what they do on rendered paths

  /** The path after a slash, seen from its first component. */
  function Tail(todo: seq<string>): string
    requires todo != []
  {
    if |todo| == 1 then "" else "/" + Join(todo[1..])
  }

  lemma JoinTail(todo: seq<string>)
    requires todo != []
    ensures Join(todo) == todo[0] + Tail(todo)
  {
  }

  lemma EraseFirst(p: string, todo: seq<string>)
    requires todo != []
    ensures Erase(p + Join(todo), |p|, |todo[0]| + 1) == if |todo| == 1 then p else p + Join(todo[1..])
  {
    JoinTail(todo);
    var s := p + (todo[0] + Tail(todo));
    assert s[..|p|] == p;
    if |todo| > 1 { assert s[|p| + |todo[0]| + 1..] == Join(todo[1..]); }
  }

  lemma RenderPush(stack: seq<string>, c: string)
    ensures Render(stack + [c]) == Render(stack) + "/" + c
  {
    assert (stack + [c])[..|stack|] == stack;
  }

  lemma RenderPop(stack: seq<string>)
    requires stack != []
    ensures Render(stack) == Render(stack[..|stack| - 1]) + "/" + stack[|stack| - 1]
  {
  }

  lemma FirstSlashAfter(p: string, c: string, tail: string)
    requires NoSlash(c) && (tail == "" || tail[0] == SLASH)
    ensures FindFirst(p + c + tail, |p|) == |p| + |c|
  {
    var s, e := p + c + tail, |p| + |c|;
    var r := FindFirst(s, |p|);
    forall i | |p| <= i < e
      ensures s[i] != SLASH
    {
      assert s[i] == c[i - |p|];
    }
    if e < |s| { assert s[e] == tail[0]; }
  }

  lemma LastComponentStarts(p: string, c: string, rest: string)
    requires NoSlash(c) && c != ""
    ensures FindLast(p + "/" + c + rest, |p| + |c|) == |p|
  {
    var s := p + "/" + c + rest;
    assert s[|p|] == SLASH;
    assert forall i :: |p| < i <= |p| + |c| ==> s[i] == c[i - |p| - 1];
  }

  datatype ResolvedPath = Found(fs: FileSystem, off: nat) | Error(why: Failure)

  function Least(a: nat, b: nat): nat
  {
    if a < b then a else b
  }

  class PathResolution {
    const filesystems: Mounts
    var path: string
    var root: FileSystem
    var fs: FileSystem
    var syms: bool
    var index: nat
    var indexIntoFs: nat
    var depthIntoFs: int
    var linksFollowed: nat

    constructor (filesystems: Mounts, path: string, none: FileSystem)
      ensures this.filesystems == filesystems && this.path == path
    {
      this.filesystems := filesystems;
      this.path := path;
      root, fs, syms, index, indexIntoFs, depthIntoFs, linksFollowed := none, none, false, 0, 0, 0, 0;
    }

    /** The fields that describe the walk; depth is one more while a component is being looked at. */
    ghost predicate Place(w: Walk, deeper: int)
      reads this
    {
      && WalkOk(filesystems, w) && root == filesystems["/"]
      && fs == FsAt(filesystems, w.stack, w.base) && syms == fs.supportsSymlinks
      && indexIntoFs == |Render(w.stack[..w.base])| + 1
      && depthIntoFs == |w.stack| - w.base + 1 + deeper && linksFollowed == w.links
    }

    /** The components todo are still to be handled, from index on. */
    ghost predicate At(w: Walk, todo: seq<string>)
      reads this
    {
      && Place(w, 0) && todo != [] && Clean(todo)
      && path == Render(w.stack) + "/" + Join(todo) && index == |Render(w.stack)| + 1
    }

    /** The component todo[0] has just been passed. */
    ghost predicate Past(w: Walk, todo: seq<string>, deeper: int)
      reads this
    {
      && Place(w, deeper) && todo != [] && Clean(todo) && Proper(todo[0])
      && path == Render(w.stack) + "/" + Join(todo) && index == |Render(w.stack)| + 1 + |todo[0]| + 1
    }

    /** Everything has been handled, but a slash may be left at the end. */
    ghost predicate Done(stack: seq<string>, base: nat)
      reads this
    {
      && WalkOk(filesystems, Walk(stack, base, 0)) && fs == FsAt(filesystems, stack, base)
      && (|| (path == Render(stack) + "/" && index == |path| && indexIntoFs == |Render(stack[..base])| + 1)
          || (stack != [] && path == Render(stack) && index == |path| + 1
              && indexIntoFs == Least(|Render(stack[..base])| + 1, |path|)))
    }

    /** What is still to be resolved comes to the outcome; with nothing left to do it is there. */
    ghost predicate Continues(w: Walk, todo: seq<string>, followLast: bool, goal: Outcome)
      reads this
    {
      if todo == [] then goal.Resolved? && Done(goal.stack, goal.base)
      else At(w, todo) && Resolve(filesystems, followLast, w, todo) == goal
    }

    /** Removes an empty component, or one that is ".", and the slash after it. */
    method DropComponent(n: nat, ghost w: Walk, ghost todo: seq<string>)
      requires At(w, todo) && (todo[0] == "" || todo[0] == ".") && n == |todo[0]| + 1
      modifies this`path
      ensures if |todo| == 1 then Done(w.stack, w.base) else At(w, todo[1..])
    {
      EraseFirst(Render(w.stack) + "/", todo);
      path := Erase(path, index, n);
    }

    /** Looks outwards for the file system; from is the number of components at which the search begins. */
    method RecursiveFindFs(ghost stack: seq<string>, ghost from: nat)
      requires "/" in filesystems && root == filesystems["/"] && AllProper(stack) && from <= |stack| && Render(stack) <= path
      requires index > 0 && FindLast(path, index - 1) == |Render(stack[..from])|
      modifies this`fs, this`syms, this`indexIntoFs, this`depthIntoFs
      ensures var base := Outer(filesystems, stack, from);
        && fs == FsAt(filesystems, stack, base) && syms == fs.supportsSymlinks
        && indexIntoFs == |Render(stack[..base])| + 1 && depthIntoFs == from - base + 1
    {
      depthIntoFs := 1;
      var backIndex: int := index;
      ghost var k: nat := from;
      while true
        invariant 0 <= k <= from && backIndex > 0 && FindLast(path, backIndex - 1) == |Render(stack[..k])|
        invariant Outer(filesystems, stack, from) == Outer(filesystems, stack, k)
        invariant depthIntoFs == from - k + 1
        decreases k
      {
        backIndex := FindLast(path, backIndex - 1);
        PrefixOf(path, stack, k);
        if backIndex == 0 {
          fs := root;
          indexIntoFs := 1;
          break;
        }
        if path[..backIndex] in filesystems {
          fs := filesystems[path[..backIndex]];
          indexIntoFs := backIndex + 1;
          break;
        }
        depthIntoFs := depthIntoFs + 1;
        k := k - 1;
      }
      syms := fs.supportsSymlinks;
    }

    /** Removes the component before "..", with both. */
    method RemoveUp(slash: nat, ghost stack: seq<string>, ghost todo: seq<string>)
      requires stack != [] && AllProper(stack) && todo != [] && todo[0] == ".."
      requires path == Render(stack) + "/" + Join(todo) && index == |Render(stack)| + 1 && slash == index + 2
      modifies this`path, this`index
      ensures AfterUp(path, index, stack[..|stack| - 1], todo)
    {
      UpEdit(path, index, stack, todo);
      var removeStart := FindLast(path, index - 2);
      path := Erase(path, removeStart, slash - removeStart);
      index := removeStart + 1;
      if path == "" { path := "/"; }
    }

    /** The state after "..", once the file system is known. */
    lemma ArrivedUp(up: Walk, todo: seq<string>)
      requires todo != [] && Clean(todo) && AfterUp(path, index, up.stack, todo)
      requires WalkOk(filesystems, up) && root == filesystems["/"]
      requires fs == FsAt(filesystems, up.stack, up.base) && syms == fs.supportsSymlinks
      requires indexIntoFs == Least(|Render(up.stack[..up.base])| + 1, |path|)
      requires |todo| > 1 ==> depthIntoFs == |up.stack| - up.base + 1 && linksFollowed == up.links
      ensures if |todo| == 1 then Done(up.stack, up.base) else At(up, todo[1..])
    {
      RenderShorter(up.stack, up.base);
    }

    method UpPathComponent(slash: nat, ghost w: Walk, ghost todo: seq<string>) returns (failure: Option<Failure>)
      requires At(w, todo) && todo[0] == ".." && slash == index + 2
      modifies this
      ensures if w.stack == [] then failure == Some(ENOENT)
              else
                && failure.None?
                && var up := Up(filesystems, w, |todo| == 1);
                   if |todo| == 1 then Done(up.stack, up.base) else At(up, todo[1..])
    {
      LengthOfRender(w.stack);
      if index <= 1 { return Some(ENOENT); }
      RemoveUp(slash, w.stack, todo);
      GoUp(w, todo);
      return None;
    }

    /** The rest of upPathComponent: where the shorter path is, as a file system. */
    method GoUp(ghost w: Walk, ghost todo: seq<string>)
      requires Place(w, 0) && w.stack != [] && todo != [] && Clean(todo)
      requires AfterUp(path, index, w.stack[..|w.stack| - 1], todo)
      modifies this`fs, this`syms, this`indexIntoFs, this`depthIntoFs
      ensures var up := Up(filesystems, w, |todo| == 1);
        if |todo| == 1 then Done(up.stack, up.base) else At(up, todo[1..])
    {
      ghost var up := Up(filesystems, w, |todo| == 1);
      UpIsOk(filesystems, w, |todo| == 1);
      if indexIntoFs > |path| { indexIntoFs := |path|; }
      depthIntoFs := depthIntoFs - 1;
      if depthIntoFs <= 0 { LeaveFs(w, up, todo); }
      ArrivedUp(up, todo);
    }

    /** The mount point itself has been left. */
    method LeaveFs(ghost w: Walk, ghost up: Walk, ghost todo: seq<string>)
      requires todo != [] && WalkOk(filesystems, w) && w.stack != [] && w.base == |w.stack|
      requires up == Up(filesystems, w, |todo| == 1) && WalkOk(filesystems, up) && root == filesystems["/"]
      requires AfterUp(path, index, up.stack, todo)
      modifies this`fs, this`syms, this`indexIntoFs, this`depthIntoFs
      ensures fs == FsAt(filesystems, up.stack, up.base) && syms == fs.supportsSymlinks
      ensures indexIntoFs == Least(|Render(up.stack[..up.base])| + 1, |path|)
      ensures |todo| > 1 ==> depthIntoFs == |up.stack| - up.base + 1
    {
      AfterUpFacts(path, index, up.stack, todo);
      ghost var from := if |todo| == 1 && up.stack != [] then |up.stack| - 1 else |up.stack|;
      RecursiveFindFs(up.stack, from);
      RenderShorter(up.stack, up.base);
    }

    /** The state after a component that was accepted; next is the walk with it on the stack. */
    lemma Accepted(stack: seq<string>, next: Walk, todo: seq<string>)
      requires todo != [] && Clean(todo) && todo[0] != "" && next.stack == stack + [todo[0]]
      requires path == Render(stack) + "/" + Join(todo) && index == |Render(stack)| + 1 + |todo[0]| + 1
      requires WalkOk(filesystems, next) && root == filesystems["/"]
      requires fs == FsAt(filesystems, next.stack, next.base) && syms == fs.supportsSymlinks
      requires indexIntoFs == Least(|Render(next.stack[..next.base])| + 1, |path|)
      requires depthIntoFs == |next.stack| - next.base + 1 && linksFollowed == next.links
      ensures if |todo| == 1 then Done(next.stack, next.base) else At(next, todo[1..])
    {
      PushEdit(path, index, stack, todo);
      RenderShorter(next.stack, next.base);
    }

    /** The path up to index is where a file system is mounted. */
    method EnterFs()
      requires 0 < index <= |path| + 1 && path[..index - 1] in filesystems
      modifies this`fs, this`syms, this`indexIntoFs, this`depthIntoFs
      ensures fs == filesystems[path[..index - 1]] && syms == fs.supportsSymlinks
      ensures indexIntoFs == Least(index, |path|) && depthIntoFs == 1
    {
      fs := filesystems[path[..index - 1]];
      syms := fs.supportsSymlinks;
      indexIntoFs := if index > |path| then index - 1 else index;
      depthIntoFs := 1;
    }

    lemma Entered(w: Walk, todo: seq<string>)
      requires WalkOk(filesystems, w) && root == filesystems["/"] && linksFollowed == w.links
      requires todo != [] && Clean(todo) && Proper(todo[0])
      requires path == Render(w.stack) + "/" + Join(todo) && index == |Render(w.stack)| + 1 + |todo[0]| + 1
      requires Render(w.stack + [todo[0]]) in filesystems && fs == filesystems[Render(w.stack + [todo[0]])]
      requires syms == fs.supportsSymlinks && indexIntoFs == Least(index, |path|) && depthIntoFs == 1
      ensures var here := w.stack + [todo[0]];
        if |todo| == 1 then Done(here, |here|) else At(Walk(here, |here|, w.links), todo[1..])
    {
      var here := w.stack + [todo[0]];
      PushEdit(path, index, w.stack, todo);
      EnteredOk(filesystems, w, todo[0]);
      Accepted(w.stack, Walk(here, |here|, w.links), todo);
    }

    /** The target is absolute: everything up to the link is replaced. */
    method ReplaceAbsolute(target: string, ghost w: Walk, ghost todo: seq<string>) returns (failure: Option<Failure>)
      requires Past(w, todo, 1) && target != "" && target[0] == SLASH
      modifies this
      ensures failure == if |target| + |Tail(todo)| > PATH_MAX then Some(ENAMETOOLONG) else None
      ensures failure.None? ==> At(Walk([], 0, w.links), Split(target[1..]) + todo[1..])
    {
      PushEdit(path, index, w.stack, todo);
      if |target| + |path| - index + 1 > PATH_MAX { return Some(ENAMETOOLONG); }
      AbsoluteEdit(target, todo);
      CleanBoth(target[1..], todo);
      StartOver(target + (if index <= |path| then path[index - 1..] else ""), w.links, Split(target[1..]) + todo[1..]);
      return None;
    }

    /** The walk goes on from the root, along another path. */
    method StartOver(newPath: string, ghost links: nat, ghost todo: seq<string>)
      requires "/" in filesystems && root == filesystems["/"] && links <= MAX_LINKS && linksFollowed == links
      requires todo != [] && Clean(todo) && newPath == "/" + Join(todo)
      modifies this`path, this`fs, this`syms, this`index, this`indexIntoFs, this`depthIntoFs
      ensures At(Walk([], 0, links), todo)
    {
      path := newPath;
      fs := root;
      syms := root.supportsSymlinks;
      index, indexIntoFs, depthIntoFs := 1, 1, 1;
      AtRoot(links, todo);
    }

    /** The walk that starts at the root. */
    lemma AtRoot(links: nat, todo: seq<string>)
      requires "/" in filesystems && root == filesystems["/"] && fs == root && syms == fs.supportsSymlinks
      requires links <= MAX_LINKS && linksFollowed == links && todo != [] && Clean(todo)
      requires path == "/" + Join(todo) && index == 1 && indexIntoFs == 1 && depthIntoFs == 1
      ensures At(Walk([], 0, links), todo)
    {
      ghost var none: seq<string> := [];
      LengthOfRender(none);
      assert "" + "/" == "/" && none[..0] == none;
    }

    /** The target is relative: only the link itself is replaced. */
    method ReplaceRelative(target: string, ghost w: Walk, ghost todo: seq<string>) returns (failure: Option<Failure>)
      requires Past(w, todo, 1) && target != ""
      modifies this
      ensures failure == if |Render(w.stack)| + 1 + |target| + |Tail(todo)| > PATH_MAX then Some(ENAMETOOLONG) else None
      ensures failure.None? ==> At(w, Split(target) + todo[1..])
    {
      PushEdit(path, index, w.stack, todo);
      PushFind(path, index, w.stack, todo);
      var removeStart := FindLast(path, index - 2);
      if |path| - (index - removeStart - 2) + |target| > PATH_MAX { return Some(ENAMETOOLONG); }
      RelativeEdit(Render(w.stack), target, todo);
      CleanBoth(target, todo);
      GoBack(path[..removeStart + 1] + target + (if index <= |path| then path[index - 1..] else ""), removeStart + 1,
             w, Split(target) + todo[1..]);
      return None;
    }

    /** The walk goes on from the component before, along another path. */
    method GoBack(newPath: string, newIndex: nat, ghost w: Walk, ghost todo: seq<string>)
      requires Place(w, 1) && todo != [] && Clean(todo)
      requires newPath == Render(w.stack) + "/" + Join(todo) && newIndex == |Render(w.stack)| + 1
      modifies this`path, this`index, this`depthIntoFs
      ensures At(w, todo)
    {
      path := newPath;
      index := newIndex;
      depthIntoFs := depthIntoFs - 1;
    }

    /** followSymlink for a target that was read: the link is replaced by it. */
    method ReplaceLink(target: string, ghost w: Walk, ghost todo: seq<string>, ghost followLast: bool)
      returns (failure: Option<Failure>, ghost w': Walk, ghost todo': seq<string>)
      requires Past(w, todo, 1)
      modifies this
      ensures w'.links == w.links && todo' != []
      ensures var goal := Follow(filesystems, followLast, w, target, todo[1..]);
        if failure.Some? then goal == Failed(failure.value) else Continues(w', todo', followLast, goal)
    {
      w', todo' := w, todo;
      if target == "" { return Some(ENOENT), w', todo'; }
      if target[0] == SLASH {
        w', todo' := Walk([], 0, w.links), Split(target[1..]) + todo[1..];
        failure := ReplaceAbsolute(target, w, todo);
      } else {
        todo' := Split(target) + todo[1..];
        failure := ReplaceRelative(target, w, todo);
      }
    }

    /** The state after a component that leads into no other file system and is not replaced. */
    lemma Kept(w: Walk, todo: seq<string>)
      requires Past(w, todo, 1)
      ensures var here := w.stack + [todo[0]];
        if |todo| == 1 then Done(here, w.base) else At(Walk(here, w.base, w.links), todo[1..])
    {
      KeptOk(filesystems, w, todo[0]);
      var here := w.stack + [todo[0]];
      PushEdit(path, index, w.stack, todo);
      RenderShorter(here, w.base);
      Accepted(w.stack, Walk(here, w.base, w.links), todo);
    }

    /** The name by which the file system is asked for the component. */
    lemma NameOf(w: Walk, todo: seq<string>)
      requires Past(w, todo, 1)
      ensures indexIntoFs <= index - 1 <= |path|
      ensures path[indexIntoFs..index - 1] == Relative(w.stack + [todo[0]], w.base)
    {
      var here := w.stack + [todo[0]];
      PushEdit(path, index, w.stack, todo);
      KeptOk(filesystems, w, todo[0]);
      RenderRelative(here, w.base);
      var a, b := Render(here[..w.base]) + "/", Relative(here, w.base);
      assert path[..index - 1] == a + b;
      assert path[indexIntoFs..index - 1] == path[..index - 1][|a|..];
    }

    /** A symbolic link has been found; target is what readlink makes of it. */
    method FollowSymlink(target: Option<string>, ghost w: Walk, ghost todo: seq<string>, ghost followLast: bool)
      returns (failure: Option<Failure>, ghost w': Walk, ghost todo': seq<string>)
      requires Past(w, todo, 1)
      requires var here := w.stack + [todo[0]];
        && WalkOk(filesystems, Walk(here, w.base, w.links)) && Render(here) !in filesystems
        && NodeAt(filesystems, Walk(here, w.base, w.links), if |todo| == 1 then followLast else true) == Some(Symlink(target))
      modifies this
      ensures Later(w, todo, w', todo')
      ensures var goal := Resolve(filesystems, followLast, w, todo);
        if failure.Some? then goal == Failed(failure.value) else Continues(w', todo', followLast, goal)
    {
      w', todo' := w, [];
      ResolveLink(filesystems, followLast, w, todo, target);
      linksFollowed := linksFollowed + 1;
      if linksFollowed >= MAX_LINKS { return Some(ELOOP), w', todo'; }
      if target.None? {
        Kept(w.(links := w.links + 1), todo);
        return None, Walk(w.stack + [todo[0]], w.base, w.links + 1), todo[1..];
      }
      failure, w', todo' := ReplaceLink(target.value, w.(links := w.links + 1), todo, followLast);
    }

    /** Fewer components are left, or fewer links may be followed. */
    ghost predicate Later(w: Walk, todo: seq<string>, w': Walk, todo': seq<string>)
    {
      w'.links > w.links || (w'.links == w.links && |todo'| < |todo|)
    }

    /** What the current file system says about a component that is not a mount point. */
    method AskFs(follow: bool, ghost w: Walk, ghost todo: seq<string>) returns (node: Option<Node>)
      requires Past(w, todo, 1) && WalkOk(filesystems, Walk(w.stack + [todo[0]], w.base, w.links))
      ensures node == NodeAt(filesystems, Walk(w.stack + [todo[0]], w.base, w.links), follow)
    {
      NameOf(w, todo);
      KeptOk(filesystems, w, todo[0]);
      if syms && follow {
        var name := path[indexIntoFs..index - 1];
        if name in fs.nodes { return Some(fs.nodes[name]); }
      }
      return None;
    }

    /** The component is not a mount point: a link is replaced, and anything else is kept. */
    method StayInFs(follow: bool, ghost w: Walk, ghost todo: seq<string>, ghost followLast: bool)
      returns (failure: Option<Failure>, ghost w': Walk, ghost todo': seq<string>)
      requires Past(w, todo, 1) && follow == if |todo| == 1 then followLast else true
      requires Render(w.stack + [todo[0]]) !in filesystems && (index > |path| <==> |todo| == 1)
      modifies this
      ensures Later(w, todo, w', todo')
      ensures var goal := Resolve(filesystems, followLast, w, todo);
        if failure.Some? then goal == Failed(failure.value) else Continues(w', todo', followLast, goal)
    {
      KeptOk(filesystems, w, todo[0]);
      var node := AskFs(follow, w, todo);
      if node.Some? && node.value.Symlink? {
        failure, w', todo' := FollowSymlink(node.value.target, w, todo, followLast);
      } else if node.Some? && index <= |path| && node.value.Other? {
        return Some(ENOTDIR), w, [];
      } else {
        Kept(w, todo);
        return None, Walk(w.stack + [todo[0]], w.base, w.links), todo[1..];
      }
    }

    /** A component that is neither empty nor "." nor "..". */
    method NormalPathComponent(follow: bool, ghost w: Walk, ghost todo: seq<string>, ghost followLast: bool)
      returns (failure: Option<Failure>, ghost w': Walk, ghost todo': seq<string>)
      requires Past(w, todo, 0) && follow == if |todo| == 1 then followLast else true
      modifies this
      ensures Later(w, todo, w', todo')
      ensures var goal := Resolve(filesystems, followLast, w, todo);
        if failure.Some? then goal == Failed(failure.value) else Continues(w', todo', followLast, goal)
    {
      PushEdit(path, index, w.stack, todo);
      if path[..index - 1] in filesystems {
        w', todo' := EnterMount(w, todo, followLast);
        return None, w', todo';
      }
      depthIntoFs := depthIntoFs + 1;
      failure, w', todo' := StayInFs(follow, w, todo, followLast);
    }

    /** The path up to index is a mount point. */
    method EnterMount(ghost w: Walk, ghost todo: seq<string>, ghost followLast: bool) returns (ghost w': Walk, ghost todo': seq<string>)
      requires Past(w, todo, 0) && Render(w.stack + [todo[0]]) in filesystems
      modifies this
      ensures Later(w, todo, w', todo') && Continues(w', todo', followLast, Resolve(filesystems, followLast, w, todo))
    {
      ghost var here := w.stack + [todo[0]];
      PushEdit(path, index, w.stack, todo);
      EnteredOk(filesystems, w, todo[0]);
      KeptOk(filesystems, w, todo[0]);
      EnterFs();
      Entered(w, todo);
      return Walk(here, |here|, w.links), todo[1..];
    }

    /** One component, from index to slash. */
    method HandleComponent(slash: nat, followLast: bool, ghost w: Walk, ghost todo: seq<string>)
      returns (failure: Option<Failure>, ghost w': Walk, ghost todo': seq<string>)
      requires At(w, todo) && slash == index + |todo[0]| && slash <= |path| && path[index..slash] == todo[0]
      modifies this
      ensures Later(w, todo, w', todo')
      ensures var goal := Resolve(filesystems, followLast, w, todo);
        if failure.Some? then goal == Failed(failure.value) else Continues(w', todo', followLast, goal)
    {
      w', todo' := w, todo[1..];
      if slash == index {
        DropComponent(1, w, todo);
        failure := None;
      } else if slash - index == 1 && path[index] == '.' {
        DropComponent(2, w, todo);
        failure := None;
      } else if slash - index == 2 && path[index] == '.' && path[index + 1] == '.' {
        failure := UpPathComponent(slash, w, todo);
        if failure.None? { w' := Up(filesystems, w, |todo| == 1); }
      } else {
        failure, w', todo' := PassComponent(slash, followLast, w, todo);
      }
    }

    method PassComponent(slash: nat, followLast: bool, ghost w: Walk, ghost todo: seq<string>)
      returns (failure: Option<Failure>, ghost w': Walk, ghost todo': seq<string>)
      requires At(w, todo) && slash == index + |todo[0]| && Proper(todo[0])
      modifies this
      ensures Later(w, todo, w', todo')
      ensures var goal := Resolve(filesystems, followLast, w, todo);
        if failure.Some? then goal == Failed(failure.value) else Continues(w', todo', followLast, goal)
    {
      PushEdit(path, slash + 1, w.stack, todo);
      index := slash + 1;
      var follow := if index > |path| then followLast else true;
      failure, w', todo' := NormalPathComponent(follow, w, todo, followLast);
    }

    /** The caller is told the outcome, and the path has become that of the resolved components. */
    ghost predicate Answers(goal: Outcome, r: ResolvedPath)
      reads this`path
    {
      match goal
      case Failed(why) => r == Error(why)
      case Resolved(stack, base) =>
        && WalkOk(filesystems, Walk(stack, base, 0)) && path == Render(stack)
        && r == Found(FsAt(filesystems, stack, base), Least(|Render(stack[..base])| + 1, |path|))
    }

    method Start()
      requires "/" in filesystems && path != "" && path[0] == SLASH
      modifies this`root, this`fs, this`syms, this`index, this`indexIntoFs, this`depthIntoFs, this`linksFollowed
      ensures At(Walk([], 0, 0), Split(path[1..]))
    {
      root := filesystems["/"];
      fs := root;
      syms := fs.supportsSymlinks;
      index, indexIntoFs, depthIntoFs, linksFollowed := 1, 1, 1, 0;
      JoinSplit(path[1..]);
      SplitClean(path[1..]);
      assert path == "/" + path[1..];
      AtRoot(0, Split(path[1..]));
    }

    method ResolvePath(followLastSymlink: bool) returns (r: ResolvedPath)
      requires path != "" && path[0] == SLASH
      modifies this
      ensures "/" !in filesystems ==> r == Error(ENOENT)
      ensures "/" in filesystems ==>
        && Clean(Split(old(path)[1..]))
        && Answers(Resolve(filesystems, followLastSymlink, Walk([], 0, 0), Split(old(path)[1..])), r)
    {
      if "/" !in filesystems { return Error(ENOENT); }
      Start();
      ghost var w, todo := Walk([], 0, 0), Split(path[1..]);
      ghost var goal := Resolve(filesystems, followLastSymlink, w, todo);
      while true
        invariant At(w, todo) && Resolve(filesystems, followLastSymlink, w, todo) == goal
        decreases MAX_LINKS - w.links, |todo|
      {
        ComponentAt(path, index, w.stack, todo);
        var slash := FindFirst(path, index);
        var failure;
        failure, w, todo := HandleComponent(slash, followLastSymlink, w, todo);
        if failure.Some? { return Error(failure.value); }
        if index >= |path| {
          AtEnd(w, todo, followLastSymlink, goal);
          r := Finish(goal.stack, goal.base);
          return;
        }
        NotAtEnd(w, todo, followLastSymlink, goal);
      }
    }

    /** Removes the slash at the end. */
    method Finish(ghost stack: seq<string>, ghost base: nat) returns (r: ResolvedPath)
      requires Done(stack, base)
      modifies this`path, this`indexIntoFs
      ensures Answers(Resolved(stack, base), r)
    {
      LastCharacter(stack);
      RenderShorter(stack, base);
      var last := |path| - 1;
      if path[last] == SLASH {
        path := Erase(path, last, 1);
        if indexIntoFs > |path| { indexIntoFs := |path|; }
      }
      return Found(fs, indexIntoFs);
    }

    /** With nothing left behind the index, the outcome has been reached. */
    lemma AtEnd(w: Walk, todo: seq<string>, followLast: bool, goal: Outcome)
      requires Continues(w, todo, followLast, goal) && index >= |path|
      ensures goal.Resolved? && Done(goal.stack, goal.base)
    {
      if todo != [] {
        JoinTail(todo);
        assert |Join(todo)| == 0 && |todo| == 1 && todo[0] == "";
        assert path == Render(w.stack) + "/";
      }
    }

    lemma NotAtEnd(w: Walk, todo: seq<string>, followLast: bool, goal: Outcome)
      requires Continues(w, todo, followLast, goal) && index < |path|
      ensures At(w, todo) && Resolve(filesystems, followLast, w, todo) == goal
    {
    }
  }

  /** FilesystemManager's resolvePath, for a path from outside. */
  method ResolvePath(filesystems: Mounts, path: string, followLastSymlink: bool, none: FileSystem)
    returns (r: ResolvedPath, resolved: string)
    ensures |path| > PATH_MAX ==> r == Error(ENAMETOOLONG)
    ensures |path| <= PATH_MAX && (path == "" || path[0] != SLASH || "/" !in filesystems) ==> r == Error(ENOENT)
    ensures |path| <= PATH_MAX && path != "" && path[0] == SLASH && "/" in filesystems ==>
      && (forall c :: c in Split(path[1..]) ==> NoSlash(c))
      && match Resolve(filesystems, followLastSymlink, Walk([], 0, 0), Split(path[1..]))
         case Failed(why) => r == Error(why)
         case Resolved(stack, base) =>
           && WalkOk(filesystems, Walk(stack, base, 0)) && resolved == Render(stack)
           && r == Found(FsAt(filesystems, stack, base), Least(|Render(stack[..base])| + 1, |resolved|))
  {
    resolved := path;
    if |path| > PATH_MAX { return Error(ENAMETOOLONG), resolved; }
    if path == "" || path[0] != SLASH { return Error(ENOENT), resolved; }
    var pr := new PathResolution(filesystems, path, none);
    r := pr.ResolvePath(followLastSymlink);
    resolved := pr.path;
  }

  /** The first component of what is left reaches from index to the next slash. */
  lemma ComponentAt(path: string, index: nat, stack: seq<string>, todo: seq<string>)
    requires todo != [] && NoSlash(todo[0])
    requires path == Render(stack) + "/" + Join(todo) && index == |Render(stack)| + 1
    ensures index <= |path| && FindFirst(path, index) == index + |todo[0]| && path[index..index + |todo[0]|] == todo[0]
  {
    JoinTail(todo);
    var p := Render(stack) + "/";
    assert path == p + todo[0] + Tail(todo);
    FirstSlashAfter(p, todo[0], Tail(todo));
  }

  /** The path of a stack does not end in a slash. */
  lemma LastCharacter(stack: seq<string>)
    requires AllProper(stack)
    ensures stack != [] ==> Render(stack) != "" && Render(stack)[|Render(stack)| - 1] != SLASH
  {
    if stack != [] {
      RenderPop(stack);
      var c := stack[|stack| - 1];
      assert Proper(c) && Render(stack)[|Render(stack)| - 1] == c[|c| - 1];
    }
  }

  /** What resolving comes to at a symbolic link. */
  lemma ResolveLink(mounts: Mounts, followLast: bool, w: Walk, todo: seq<string>, target: Option<string>)
    requires WalkOk(mounts, w) && todo != [] && (forall c :: c in todo ==> NoSlash(c)) && Proper(todo[0])
    requires var here := w.stack + [todo[0]];
      && WalkOk(mounts, Walk(here, w.base, w.links)) && Render(here) !in mounts
      && NodeAt(mounts, Walk(here, w.base, w.links), if |todo| == 1 then followLast else true) == Some(Symlink(target))
    ensures var here := w.stack + [todo[0]];
      Resolve(mounts, followLast, w, todo) ==
        if w.links + 1 >= MAX_LINKS then Failed(ELOOP)
        else if target.Some? then Follow(mounts, followLast, w.(links := w.links + 1), target.value, todo[1..])
        else if |todo| == 1 then Resolved(here, w.base)
        else Resolve(mounts, followLast, Walk(here, w.base, w.links + 1), todo[1..])
  {
  }

  lemma KeptOk(mounts: Mounts, w: Walk, c: string)
    requires WalkOk(mounts, w) && Proper(c)
    ensures var here := w.stack + [c];
      && WalkOk(mounts, Walk(here, w.base, w.links)) && here[..w.base] == w.stack[..w.base]
      && FsAt(mounts, here, w.base) == FsAt(mounts, w.stack, w.base)
  {
    var here := w.stack + [c];
    assert here[..w.base] == w.stack[..w.base];
  }

  /** A path is the path of its first components and, after a slash, the rest. */
  lemma {:induction false} RenderRelative(stack: seq<string>, base: nat)
    requires base < |stack|
    ensures Render(stack) == Render(stack[..base]) + "/" + Relative(stack, base)
    decreases |stack|
  {
    RenderPop(stack);
    var up, c := stack[..|stack| - 1], stack[|stack| - 1];
    if base < |up| {
      RenderRelative(up, base);
      assert up[..base] == stack[..base] && stack[base..] == up[base..] + [c];
      JoinBoth(up[base..], [c]);
    } else {
      assert stack[..base] == up && stack[base..] == [c];
    }
  }

  /** The edit for "..", on the string. */
  lemma UpEdit(path: string, index: nat, stack: seq<string>, todo: seq<string>)
    requires stack != [] && AllProper(stack) && todo != [] && todo[0] == ".."
    requires path == Render(stack) + "/" + Join(todo) && index == |Render(stack)| + 1
    ensures index >= 2 && 0 <= FindLast(path, index - 2) <= index + 2
    ensures var removeStart := FindLast(path, index - 2);
      var left := Erase(path, removeStart, index + 2 - removeStart);
      AfterUp(if left == "" then "/" else left, removeStart + 1, stack[..|stack| - 1], todo)
  {
    FindUp(path, index, stack, todo);
    ErasedUp(path, index, stack, todo, |Render(stack[..|stack| - 1])|);
  }

  lemma ErasedUp(path: string, index: nat, stack: seq<string>, todo: seq<string>, removeStart: nat)
    requires stack != [] && todo != [] && |todo[0]| == 2
    requires path == Render(stack) + "/" + Join(todo) && index == |Render(stack)| + 1
    requires removeStart == |Render(stack[..|stack| - 1])| && removeStart <= index + 2 <= |path|
    ensures var left := Erase(path, removeStart, index + 2 - removeStart);
      AfterUp(if left == "" then "/" else left, removeStart + 1, stack[..|stack| - 1], todo)
  {
    EraseUp(path, index, stack, todo);
    TailAfterUp(Erase(path, removeStart, index + 2 - removeStart), removeStart + 1, stack[..|stack| - 1], todo);
  }

  lemma TailAfterUp(left: string, index: nat, up: seq<string>, todo: seq<string>)
    requires todo != [] && left == Render(up) + Tail(todo) && index == |Render(up)| + 1
    ensures AfterUp(if left == "" then "/" else left, index, up, todo)
  {
    LengthOfRender(up);
    if |todo| > 1 {
      Associative(Render(up), "/", Join(todo[1..]));
    } else {
      assert Tail(todo) == "" && Render(up) + Tail(todo) == Render(up);
    }
  }

  lemma Associative(a: string, b: string, c: string)
    ensures a + b + c == a + (b + c)
  {
  }

  /** The string after a component has been passed. */
  lemma PushEdit(path: string, index: nat, stack: seq<string>, todo: seq<string>)
    requires todo != []
    requires path == Render(stack) + "/" + Join(todo) && index == |Render(stack)| + 1 + |todo[0]| + 1
    ensures var here := Render(stack + [todo[0]]);
      && index == |here| + 1 && |here| <= |path| && path[..index - 1] == here && path[index - 1..] == Tail(todo)
      && path == here + Tail(todo)
      && (index > |path| <==> |todo| == 1)
  {
    RenderPush(stack, todo[0]);
    JoinTail(todo);
    CutAt(Render(stack) + "/", todo[0], Tail(todo));
  }

  lemma CutAt(p: string, c: string, tail: string)
    ensures p + (c + tail) == (p + c) + tail
    ensures (p + c + tail)[..|p + c|] == p + c && (p + c + tail)[|p + c|..] == tail
  {
  }

  lemma PushFind(path: string, index: nat, stack: seq<string>, todo: seq<string>)
    requires todo != [] && NoSlash(todo[0]) && todo[0] != ""
    requires path == Render(stack) + "/" + Join(todo) && index == |Render(stack)| + 1 + |todo[0]| + 1
    ensures FindLast(path, index - 2) == |Render(stack)| && path[..|Render(stack)| + 1] == Render(stack) + "/"
  {
    JoinTail(todo);
    assert path == Render(stack) + "/" + todo[0] + Tail(todo);
    LastComponentStarts(Render(stack), todo[0], Tail(todo));
  }

  /** The components of a link's target, and behind them those that came after the link. */
  lemma JoinTarget(target: string, todo: seq<string>)
    requires todo != []
    ensures Join(Split(target) + todo[1..]) == target + Tail(todo)
  {
    JoinSplit(target);
    if |todo| == 1 {
      assert Split(target) + todo[1..] == Split(target);
    } else {
      JoinBoth(Split(target), todo[1..]);
    }
  }

  lemma AbsoluteEdit(target: string, todo: seq<string>)
    requires target != "" && target[0] == SLASH && todo != []
    ensures "/" + Join(Split(target[1..]) + todo[1..]) == target + Tail(todo)
  {
    JoinTarget(target[1..], todo);
    assert target == "/" + target[1..];
    Associative("/", target[1..], Tail(todo));
  }

  lemma CleanBoth(s: string, todo: seq<string>)
    requires todo != [] && forall c :: c in todo ==> NoSlash(c)
    ensures forall c :: c in Split(s) + todo[1..] ==> NoSlash(c)
  {
    SplitClean(s);
  }

  lemma EnteredOk(mounts: Mounts, w: Walk, c: string)
    requires WalkOk(mounts, w) && Proper(c) && Render(w.stack + [c]) in mounts
    ensures var here := w.stack + [c];
      && here[..|here|] == here && WalkOk(mounts, Walk(here, |here|, w.links))
      && FsAt(mounts, here, |here|) == mounts[Render(here)]
  {
    var here := w.stack + [c];
    assert here[..|here|] == here;
  }

  lemma RelativeEdit(p: string, target: string, todo: seq<string>)
    requires todo != []
    ensures p + "/" + Join(Split(target) + todo[1..]) == (p + "/") + target + Tail(todo)
    ensures Split(target) + todo[1..] != []
  {
    JoinTarget(target, todo);
  }

  /** The path and the index after a component has been removed with the ".." behind it. */
  ghost predicate AfterUp(path: string, index: nat, up: seq<string>, todo: seq<string>)
    requires todo != []
  {
    if |todo| == 1 then (if up == [] then path == "/" && index == 1 else path == Render(up) && index == |path| + 1)
    else path == Render(up) + "/" + Join(todo[1..]) && index == |Render(up)| + 1
  }

  /** Where the search for a file system begins after "..". */
  lemma AfterUpFacts(path: string, index: nat, up: seq<string>, todo: seq<string>)
    requires todo != [] && AfterUp(path, index, up, todo) && AllProper(up)
    ensures var from := if |todo| == 1 && up != [] then |up| - 1 else |up|;
      Render(up) <= path && index > 0 && FindLast(path, index - 1) == |Render(up[..from])|
  {
    LengthOfRender(up);
    assert up[..|up|] == up;
    if |todo| == 1 && up != [] {
      PrefixOf(path, up, |up|);
    } else {
      assert path[index - 1] == SLASH;
    }
  }

  lemma UpIsOk(mounts: Mounts, w: Walk, last: bool)
    requires WalkOk(mounts, w) && w.stack != []
    ensures var up := Up(mounts, w, last);
      && WalkOk(mounts, up) && up.links == w.links && |up.stack| == |w.stack| - 1
      && (w.base < |w.stack| ==>
            && up.base == w.base && up.stack[..up.base] == w.stack[..w.base]
            && FsAt(mounts, up.stack, up.base) == FsAt(mounts, w.stack, w.base))
  {
    var up := Up(mounts, w, last);
    assert up.stack[..up.base] == w.stack[..up.base];
  }

  lemma RenderShorter(stack: seq<string>, k: nat)
    requires k <= |stack|
    ensures |Render(stack[..k])| <= |Render(stack)| && (k < |stack| ==> |Render(stack[..k])| < |Render(stack)|)
  {
    RenderPrefix(stack, k);
    if k < |stack| {
      RenderPrefix(stack[..|stack| - 1], k);
      assert stack[..|stack| - 1][..k] == stack[..k];
      RenderPop(stack);
    }
  }

  lemma LengthOfRender(stack: seq<string>)
    ensures |Render(stack)| == 0 <==> stack == []
    ensures stack != [] ==> |Render(stack)| > |stack[|stack| - 1]|
  {
    if stack != [] { RenderPop(stack); }
  }

  lemma FindUp(path: string, index: nat, stack: seq<string>, todo: seq<string>)
    requires stack != [] && AllProper(stack) && todo != []
    requires path == Render(stack) + "/" + Join(todo) && index == |Render(stack)| + 1
    ensures index >= 2 && FindLast(path, index - 2) == |Render(stack[..|stack| - 1])| <= |Render(stack)|
  {
    var up, c := Render(stack[..|stack| - 1]), stack[|stack| - 1];
    assert Proper(c);
    RenderPop(stack);
    assert Render(stack) + "/" + Join(todo) == up + "/" + c + ("/" + Join(todo));
    LastComponentStarts(up, c, "/" + Join(todo));
  }

  /** What is left of "/a/b/.." and what follows it. */
  lemma EraseUp(path: string, index: nat, stack: seq<string>, todo: seq<string>)
    requires stack != [] && todo != [] && |todo[0]| == 2
    requires path == Render(stack) + "/" + Join(todo) && index == |Render(stack)| + 1
    ensures var up := Render(stack[..|stack| - 1]);
      |up| <= |Render(stack)| && Erase(path, |up|, index + 2 - |up|) == up + Tail(todo)
  {
    var up, c := Render(stack[..|stack| - 1]), stack[|stack| - 1];
    RenderPop(stack);
    JoinTail(todo);
    var removed := "/" + c + ("/" + todo[0]);
    Associative(up, "/" + c, "/" + todo[0]);
    Associative(up, "/", c);
    Associative(Render(stack), "/", todo[0]);
    Associative(Render(stack) + "/", todo[0], Tail(todo));
    EraseMiddle(up, removed, Tail(todo));
  }

  lemma EraseMiddle(p: string, m: string, rest: string)
    ensures Erase(p + m + rest, |p|, |m|) == p + rest
  {
    assert (p + m + rest)[..|p|] == p;
    if rest != "" { assert (p + m + rest)[|p| + |m|..] == rest; }
  }

  /** The first k components of a stack, in a path that begins with it. */
  lemma PrefixOf(path: string, stack: seq<string>, k: nat)
    requires AllProper(stack) && k <= |stack| && Render(stack) <= path
    ensures |Render(stack[..k])| <= |path| && path[..|Render(stack[..k])|] == Render(stack[..k])
    ensures Render(stack[..k]) == "" <==> k == 0
    ensures k > 0 ==> FindLast(path, |Render(stack[..k])| - 1) == |Render(stack[..k - 1])|
  {
    RenderPrefix(stack, k);
    var r := Render(stack[..k]);
    assert r <= path && path == r + path[|r|..];
    if k > 0 {
      var c := stack[k - 1];
      assert Proper(c) && stack[..k][..k - 1] == stack[..k - 1];
      RenderPop(stack[..k]);
      LastComponentStarts(Render(stack[..k - 1]), c, path[|r|..]);
    }
  }

  lemma {:induction false} RenderPrefix(stack: seq<string>, k: nat)
    requires k <= |stack|
    ensures Render(stack[..k]) <= Render(stack)
    decreases |stack|
  {
    if k < |stack| {
      var up := stack[..|stack| - 1];
      RenderPrefix(up, k);
      assert up[..k] == stack[..k];
    } else {
      assert stack[..k] == stack;
    }
  }
}
