// Paths as lists of components, and what resolving one means (file_access.cpp): a stack
// of components that grows and shrinks as the path is read from left to right.

module Paths {
  import opened Common

  // ----- strings and components

  const SLASH: char := '/'

  ghost predicate NoSlash(s: string)
  {
    SLASH !in s
  }

  ghost predicate Clean(todo: seq<string>)
  {
    forall c :: c in todo ==> NoSlash(c)
  }

  /** The components of a path, cut at every slash; empty ones included. */
  function Split(s: string): (r: seq<string>)
    ensures r != []
  {
    if s == "" then [""]
    else
      var rest := Split(s[1..]);
      if s[0] == SLASH then [""] + rest else [[s[0]] + rest[0]] + rest[1..]
  }

  function Join(c: seq<string>): string
    requires c != []
  {
    if |c| == 1 then c[0] else c[0] + "/" + Join(c[1..])
  }

  /** A stack of components as an absolute path; the root is the empty string. */
  function Render(stack: seq<string>): string
  {
    if stack == [] then "" else Render(stack[..|stack| - 1]) + "/" + stack[|stack| - 1]
  }

  lemma {:induction false} SplitClean(s: string)
    ensures forall c :: c in Split(s) ==> NoSlash(c)
  {
    if s != "" {
      SplitClean(s[1..]);
      var rest := Split(s[1..]);
      assert forall c :: c in rest[1..] ==> c in rest;
      assert rest[0] in rest;
      if s[0] != SLASH { assert NoSlash([s[0]] + rest[0]); }
    }
  }

  lemma {:induction false} JoinSplit(s: string)
    ensures Join(Split(s)) == s
  {
    if s != "" {
      var rest := Split(s[1..]);
      JoinSplit(s[1..]);
      if s[0] == SLASH {
        assert ([""] + rest)[1..] == rest;
        assert s == "" + "/" + s[1..];
      } else {
        var r := [[s[0]] + rest[0]] + rest[1..];
        assert r[1..] == rest[1..];
        assert s == [s[0]] + s[1..];
      }
    }
  }

  lemma {:induction false} SplitJoin(c: seq<string>)
    requires c != [] && forall x :: x in c ==> NoSlash(x)
    ensures Split(Join(c)) == c
    decreases c
  {
    if |c| == 1 {
      SplitComponent(c[0]);
    } else {
      SplitJoin(c[1..]);
      SplitFirst(c[0], Join(c[1..]));
      assert c == [c[0]] + c[1..];
    }
  }

  lemma {:induction false} SplitComponent(c: string)
    requires NoSlash(c)
    ensures Split(c) == [c]
  {
    if c != "" {
      SplitComponent(c[1..]);
      assert c == [c[0]] + c[1..];
    }
  }

  lemma {:induction false} SplitFirst(c: string, rest: string)
    requires NoSlash(c)
    ensures Split(c + "/" + rest) == [c] + Split(rest)
  {
    var s := c + "/" + rest;
    if c == "" {
      assert s[1..] == rest;
    } else {
      assert s[1..] == c[1..] + "/" + rest;
      SplitFirst(c[1..], rest);
      assert c == [c[0]] + c[1..];
    }
  }

  /** Paths joined by a slash have the components of both. */
  lemma {:induction false} SplitBoth(a: string, b: string)
    ensures Split(a + "/" + b) == Split(a) + Split(b)
  {
    var s := a + "/" + b;
    if a == "" {
      assert s[1..] == b;
    } else {
      assert s[1..] == a[1..] + "/" + b;
      SplitBoth(a[1..], b);
    }
  }

  lemma {:induction false} JoinBoth(c: seq<string>, d: seq<string>)
    requires c != [] && d != []
    ensures Join(c + d) == Join(c) + "/" + Join(d)
    decreases c
  {
    if |c| == 1 {
      assert (c + d)[1..] == d;
    } else {
      assert (c + d)[1..] == c[1..] + d;
      JoinBoth(c[1..], d);
    }
  }

  /** A component that a resolved path may have. */
  ghost predicate Proper(c: string)
  {
    c != "" && c != "." && c != ".." && NoSlash(c)
  }

  ghost predicate AllProper(stack: seq<string>)
  {
    forall c :: c in stack ==> Proper(c)
  }

  /** Different stacks of components are different paths. */
  lemma {:induction false} RenderInjective(s: seq<string>, t: seq<string>)
    requires AllProper(s) && AllProper(t) && Render(s) == Render(t)
    ensures s == t
    decreases |s|
  {
    if s != [] && t != [] {
      var a, b := s[|s| - 1], t[|t| - 1];
      assert Proper(a) && Proper(b);
      LastSlashUnique(Render(s[..|s| - 1]), a, Render(t[..|t| - 1]), b);
      RenderInjective(s[..|s| - 1], t[..|t| - 1]);
      assert s == s[..|s| - 1] + [a] && t == t[..|t| - 1] + [b];
    }
  }

  lemma LastSlashUnique(p: string, a: string, q: string, b: string)
    requires NoSlash(a) && NoSlash(b) && p + "/" + a == q + "/" + b
    ensures p == q && a == b
  {
    LastSlashAt(p, a);
    LastSlashAt(q, b);
    var s := p + "/" + a;
    assert p == s[..|p|] && a == s[|p| + 1..];
    assert q == (q + "/" + b)[..|q|] && b == (q + "/" + b)[|q| + 1..];
  }

  lemma LastSlashAt(p: string, a: string)
    requires NoSlash(a)
    ensures (p + "/" + a)[|p|] == SLASH
    ensures forall i :: |p| < i < |p + "/" + a| ==> (p + "/" + a)[i] != SLASH
  {
    var s := p + "/" + a;
    forall i | |p| < i < |s|
      ensures s[i] != SLASH
    {
      assert s[i] == a[i - |p| - 1];
    }
  }

  // ----- file systems

  /** What lstat and readlink say about a path that exists; None if the link cannot be read. */
  datatype Node = Directory | Other | Symlink(target: Option<string>)

  /** nodes are named by their path relative to the file system. */
  datatype FileSystem = FileSystem(id: int, supportsSymlinks: bool, nodes: map<string, Node>)

  type Mounts = map<string, FileSystem>

  const PATH_MAX: nat := 1024
  const MAX_LINKS: nat := 2

  datatype Failure = ENOENT | ENOTDIR | ELOOP | ENAMETOOLONG

  /** The stack of the components so far, how many of them lead to the current file system, and the links followed. */
  datatype Walk = Walk(stack: seq<string>, base: nat, links: nat)

  datatype Outcome = Resolved(stack: seq<string>, base: nat) | Failed(why: Failure)

  /** The file system that is mounted on the first base components. */
  function FsAt(mounts: Mounts, stack: seq<string>, base: nat): FileSystem
    requires "/" in mounts && base <= |stack| && (base > 0 ==> Render(stack[..base]) in mounts)
  {
    if base == 0 then mounts["/"] else mounts[Render(stack[..base])]
  }

  /** The longest mounted prefix of at most k components. */
  function Outer(mounts: Mounts, stack: seq<string>, k: nat): (base: nat)
    requires k <= |stack|
    ensures base <= k && (base > 0 ==> Render(stack[..base]) in mounts)
    ensures forall j :: base < j <= k ==> Render(stack[..j]) !in mounts
  {
    if k == 0 || Render(stack[..k]) in mounts then k else Outer(mounts, stack, k - 1)
  }

  ghost predicate WalkOk(mounts: Mounts, w: Walk)
  {
    && "/" in mounts && w.base <= |w.stack| && AllProper(w.stack) && w.links <= MAX_LINKS
    && (w.base > 0 ==> Render(w.stack[..w.base]) in mounts)
  }

  /** The path of the last components, relative to the file system. */
  function Relative(stack: seq<string>, base: nat): string
    requires base < |stack|
  {
    Join(stack[base..])
  }

  /** What the current file system knows about the last component; None if it is not asked or has no answer. */
  function NodeAt(mounts: Mounts, w: Walk, follow: bool): Option<Node>
    requires "/" in mounts && w.base < |w.stack| && (w.base > 0 ==> Render(w.stack[..w.base]) in mounts)
  {
    var fs := FsAt(mounts, w.stack, w.base);
    var name := Relative(w.stack, w.base);
    if fs.supportsSymlinks && follow && name in fs.nodes then Some(fs.nodes[name]) else None
  }

  /** The walk after "..": out of the current file system if its own mount point is left. */
  function Up(mounts: Mounts, w: Walk, last: bool): Walk
    requires w.stack != [] && w.base <= |w.stack|
  {
    var up := w.stack[..|w.stack| - 1];
    // At the end of the path the search for a file system starts one component too early.
    var from := if last && up != [] then |up| - 1 else |up|;
    Walk(up, if w.base <= |up| then w.base else Outer(mounts, up, from), w.links)
  }

  /** Resolving the components todo from a walk; they are what is left of the path after a slash. */
  function Resolve(mounts: Mounts, followLast: bool, w: Walk, todo: seq<string>): Outcome
    requires WalkOk(mounts, w) && todo != [] && forall c :: c in todo ==> NoSlash(c)
    decreases MAX_LINKS - w.links, 0, |todo|
  {
    var c, rest := todo[0], todo[1..];
    if c == "" || c == "." then
      if rest == [] then Resolved(w.stack, w.base) else Resolve(mounts, followLast, w, rest)
    else if c == ".." then
      if w.stack == [] then Failed(ENOENT)
      else
        var up := Up(mounts, w, rest == []);
        assert up.stack[..up.base] == w.stack[..up.base];
        if rest == [] then Resolved(up.stack, up.base) else Resolve(mounts, followLast, up, rest)
    else
      var here := w.stack + [c];
      assert here[..w.base] == w.stack[..w.base];
      if Render(here) in mounts then
        assert here[..|here|] == here;
        if rest == [] then Resolved(here, |here|) else Resolve(mounts, followLast, Walk(here, |here|, w.links), rest)
      else
        var next := Walk(here, w.base, w.links);
        var node := NodeAt(mounts, next, if rest == [] then followLast else true);
        if node.Some? && node.value.Symlink? then
          if w.links + 1 >= MAX_LINKS then Failed(ELOOP)
          else if node.value.target.None? then
            // A link that cannot be read passes for a component like any other.
            if rest == [] then Resolved(here, w.base) else Resolve(mounts, followLast, next.(links := w.links + 1), rest)
          else Follow(mounts, followLast, w.(links := w.links + 1), node.value.target.value, rest)
        else if node.Some? && node.value.Other? && rest != [] then Failed(ENOTDIR)
        else if rest == [] then Resolved(here, w.base) else Resolve(mounts, followLast, next, rest)
  }

  /** A link is replaced by its target: from the root if that is absolute, from where the link was if not. */
  function Follow(mounts: Mounts, followLast: bool, w: Walk, target: string, rest: seq<string>): Outcome
    requires WalkOk(mounts, w) && forall c :: c in rest ==> NoSlash(c)
    decreases MAX_LINKS - w.links, 1, 0
  {
    SplitClean(target);
    if target == "" then Failed(ENOENT)
    else if target[0] == SLASH then
      if |target| + (if rest == [] then 0 else 1 + |Join(rest)|) > PATH_MAX then Failed(ENAMETOOLONG)
      else
        SplitClean(target[1..]);
        Resolve(mounts, followLast, Walk([], 0, w.links), Split(target[1..]) + rest)
    else
      if |Render(w.stack)| + 1 + |target| + (if rest == [] then 0 else 1 + |Join(rest)|) > PATH_MAX then Failed(ENAMETOOLONG)
      else Resolve(mounts, followLast, w, Split(target) + rest)
  }
}
