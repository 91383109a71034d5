// What resolving a path promises, whatever the file systems and the links in them.

module PathTheorems {
  import opened Common
  import opened Paths

  // ----- with any links

  /** A resolved path has only proper components, and its file system is mounted on a prefix of it. */
  lemma {:induction false} ResolvedIsProper(mounts: Mounts, followLast: bool, w: Walk, todo: seq<string>)
    requires WalkOk(mounts, w) && todo != [] && forall c :: c in todo ==> NoSlash(c)
    ensures var r := Resolve(mounts, followLast, w, todo);
      r.Resolved? ==> WalkOk(mounts, Walk(r.stack, r.base, 0))
    decreases MAX_LINKS - w.links, 0, |todo|
  {
    var c, rest := todo[0], todo[1..];
    if c == "" || c == "." {
      if rest != [] { ResolvedIsProper(mounts, followLast, w, rest); }
    } else if c == ".." {
      if w.stack != [] {
        var up := Up(mounts, w, rest == []);
        assert up.stack[..up.base] == w.stack[..up.base];
        if rest != [] { ResolvedIsProper(mounts, followLast, up, rest); }
      }
    } else {
      PushedIsProper(mounts, followLast, w, todo);
    }
  }

  /** The case of a component that is put on the stack. */
  lemma {:induction false} PushedIsProper(mounts: Mounts, followLast: bool, w: Walk, todo: seq<string>)
    requires WalkOk(mounts, w) && todo != [] && (forall c :: c in todo ==> NoSlash(c)) && Proper(todo[0])
    ensures var r := Resolve(mounts, followLast, w, todo);
      r.Resolved? ==> WalkOk(mounts, Walk(r.stack, r.base, 0))
    decreases MAX_LINKS - w.links, 0, |todo|, 0
  {
    var c, rest := todo[0], todo[1..];
    var here := w.stack + [c];
    assert here[..w.base] == w.stack[..w.base] && here[..|here|] == here;
    if Render(here) in mounts {
      if rest != [] { ResolvedIsProper(mounts, followLast, Walk(here, |here|, w.links), rest); }
    } else {
      var next := Walk(here, w.base, w.links);
      var node := NodeAt(mounts, next, if rest == [] then followLast else true);
      if node.Some? && node.value.Symlink? {
        if w.links + 1 < MAX_LINKS {
          if node.value.target.Some? {
            FollowedIsProper(mounts, followLast, w.(links := w.links + 1), node.value.target.value, rest);
          } else if rest != [] {
            ResolvedIsProper(mounts, followLast, next.(links := w.links + 1), rest);
          }
        }
      } else if rest != [] && !(node.Some? && node.value.Other?) {
        ResolvedIsProper(mounts, followLast, next, rest);
      }
    }
  }

  lemma {:induction false} FollowedIsProper(mounts: Mounts, followLast: bool, w: Walk, target: string, rest: seq<string>)
    requires WalkOk(mounts, w) && forall c :: c in rest ==> NoSlash(c)
    ensures var r := Follow(mounts, followLast, w, target, rest);
      r.Resolved? ==> WalkOk(mounts, Walk(r.stack, r.base, 0))
    decreases MAX_LINKS - w.links, 1, 0, 0
  {
    if target != "" {
      SplitClean(target);
      SplitClean(target[1..]);
      if target[0] == SLASH {
        ResolvedIsProper(mounts, followLast, Walk([], 0, w.links), Split(target[1..]) + rest);
      } else {
        ResolvedIsProper(mounts, followLast, w, Split(target) + rest);
      }
    }
  }

  // ----- when no link is met

  /** What one component does to the stack. */
  function Component(stack: seq<string>, c: string): Option<seq<string>>
  {
    if c == "" || c == "." then Some(stack)
    else if c != ".." then Some(stack + [c])
    else if stack == [] then None
    else Some(stack[..|stack| - 1])
  }

  /** The component stack, with nothing but the components. */
  function Normalize(stack: seq<string>, todo: seq<string>): Option<seq<string>>
    decreases |todo|
  {
    if todo == [] then Some(stack)
    else
      var next := Component(stack, todo[0]);
      if next.None? then None else Normalize(next.value, todo[1..])
  }

  /** One component that is neither empty nor ".", from a right walk. */
  ghost function Moved(mounts: Mounts, w: Walk, c: string, last: bool): Walk
    requires w.base <= |w.stack| && (c == ".." ==> w.stack != [])
  {
    if c == ".." then Up(mounts, w, last)
    else if Render(w.stack + [c]) in mounts then Walk(w.stack + [c], |w.stack| + 1, w.links)
    else Walk(w.stack + [c], w.base, w.links)
  }

  lemma MovedOk(mounts: Mounts, w: Walk, c: string, last: bool)
    requires WalkOk(mounts, w) && NoSlash(c) && c != "" && c != "." && (c == ".." ==> w.stack != [])
    ensures WalkOk(mounts, Moved(mounts, w, c, last))
    ensures Component(w.stack, c) == Some(Moved(mounts, w, c, last).stack)
  {
    if c == ".." {
      var up := Up(mounts, w, last);
      assert up.stack[..up.base] == w.stack[..up.base];
    } else {
      var here := w.stack + [c];
      assert here[..w.base] == w.stack[..w.base] && here[..|here|] == here;
    }
  }

  /** What the file system is asked about component c, unless it is "..", or mounted on. */
  function Asked(mounts: Mounts, w: Walk, c: string, follow: bool): Option<Node>
    requires WalkOk(mounts, w)
  {
    var here := w.stack + [c];
    assert here[..w.base] == w.stack[..w.base];
    if c == ".." || Render(here) in mounts then None else NodeAt(mounts, Walk(here, w.base, w.links), follow)
  }

  predicate IsLink(n: Option<Node>)
  {
    n.Some? && n.value.Symlink?
  }

  /** A file is in the way if more components follow. */
  predicate IsFile(n: Option<Node>)
  {
    n.Some? && n.value.Other?
  }

  /** Components that change nothing, and ".." at the root, are not looked up. */
  predicate Moves(w: Walk, c: string)
  {
    c != "" && c != "." && (c == ".." ==> w.stack != [])
  }

  /** No symbolic link is met on the way, up to where the resolution ends. */
  ghost predicate NoLinkMet(mounts: Mounts, followLast: bool, w: Walk, todo: seq<string>)
    requires WalkOk(mounts, w) && todo != [] && forall c :: c in todo ==> NoSlash(c)
    decreases |todo|
  {
    var c, rest := todo[0], todo[1..];
    if !Moves(w, c) then c == ".." || rest == [] || NoLinkMet(mounts, followLast, w, rest)
    else
      var node := Asked(mounts, w, c, if rest == [] then followLast else true);
      MovedOk(mounts, w, c, rest == []);
      !IsLink(node) && (rest == [] || IsFile(node) || NoLinkMet(mounts, followLast, Moved(mounts, w, c, false), rest))
  }

  /** A component before the last is neither a directory nor a link. */
  ghost predicate MeetsFile(mounts: Mounts, w: Walk, todo: seq<string>)
    requires WalkOk(mounts, w) && todo != [] && forall c :: c in todo ==> NoSlash(c)
    decreases |todo|
  {
    var c, rest := todo[0], todo[1..];
    if rest == [] then false
    else if !Moves(w, c) then c != ".." && MeetsFile(mounts, w, rest)
    else
      MovedOk(mounts, w, c, false);
      IsFile(Asked(mounts, w, c, true)) || MeetsFile(mounts, Moved(mounts, w, c, false), rest)
  }

  /** What a step of the resolution that is a move comes to. */
  ghost function AfterMove(mounts: Mounts, followLast: bool, next: Walk, rest: seq<string>): Outcome
    requires WalkOk(mounts, next) && forall c :: c in rest ==> NoSlash(c)
  {
    if rest == [] then Resolved(next.stack, next.base) else Resolve(mounts, followLast, next, rest)
  }

  /** Without a link a step of the resolution is a move, or stops at a file. */
  lemma ResolveMoves(mounts: Mounts, followLast: bool, w: Walk, todo: seq<string>)
    requires WalkOk(mounts, w) && todo != [] && (forall c :: c in todo ==> NoSlash(c)) && Moves(w, todo[0])
    requires !IsLink(Asked(mounts, w, todo[0], if |todo| == 1 then followLast else true))
    ensures var next := Moved(mounts, w, todo[0], |todo| == 1);
      && WalkOk(mounts, next)
      && Resolve(mounts, followLast, w, todo) ==
           if |todo| > 1 && IsFile(Asked(mounts, w, todo[0], true)) then Failed(ENOTDIR)
           else AfterMove(mounts, followLast, next, todo[1..])
  {
    MovedOk(mounts, w, todo[0], |todo| == 1);
    if todo[0] == ".." { ResolveUp(mounts, followLast, w, todo); } else { ResolvePush(mounts, followLast, w, todo); }
  }

  lemma ResolveUp(mounts: Mounts, followLast: bool, w: Walk, todo: seq<string>)
    requires WalkOk(mounts, w) && todo != [] && (forall c :: c in todo ==> NoSlash(c)) && todo[0] == ".." && w.stack != []
    ensures var next := Up(mounts, w, |todo| == 1);
      WalkOk(mounts, next) && Resolve(mounts, followLast, w, todo) == AfterMove(mounts, followLast, next, todo[1..])
  {
    MovedOk(mounts, w, todo[0], |todo| == 1);
  }

  lemma ResolvePush(mounts: Mounts, followLast: bool, w: Walk, todo: seq<string>)
    requires WalkOk(mounts, w) && todo != [] && (forall c :: c in todo ==> NoSlash(c)) && Proper(todo[0])
    requires !IsLink(Asked(mounts, w, todo[0], if |todo| == 1 then followLast else true))
    ensures var next := Moved(mounts, w, todo[0], |todo| == 1);
      && WalkOk(mounts, next)
      && Resolve(mounts, followLast, w, todo) ==
           if |todo| > 1 && IsFile(Asked(mounts, w, todo[0], true)) then Failed(ENOTDIR)
           else AfterMove(mounts, followLast, next, todo[1..])
  {
    MovedOk(mounts, w, todo[0], |todo| == 1);
    var here := w.stack + [todo[0]];
    assert here[..w.base] == w.stack[..w.base] && here[..|here|] == here;
  }

  /**
   * If no link is met, resolving is normalising, and it fails exactly if a file is in the way, or
   * else ".." leaves the root.
   */
  lemma {:induction false} ResolveNormalizes(mounts: Mounts, followLast: bool, w: Walk, todo: seq<string>)
    requires WalkOk(mounts, w) && todo != [] && (forall c :: c in todo ==> NoSlash(c)) && NoLinkMet(mounts, followLast, w, todo)
    ensures var r, n := Resolve(mounts, followLast, w, todo), Normalize(w.stack, todo);
      if MeetsFile(mounts, w, todo) then r == Failed(ENOTDIR)
      else if n.None? then r == Failed(ENOENT)
      else r.Resolved? && r.stack == n.value
    decreases |todo|
  {
    var c, rest := todo[0], todo[1..];
    if Moves(w, c) {
      var next := Moved(mounts, w, c, rest == []);
      ResolveMoves(mounts, followLast, w, todo);
      MovedOk(mounts, w, c, rest == []);
      if rest != [] && !IsFile(Asked(mounts, w, c, true)) { ResolveNormalizes(mounts, followLast, next, rest); }
    } else if c != ".." && rest != [] {
      ResolveNormalizes(mounts, followLast, w, rest);
    }
  }

  /** File systems without links have none to meet, and say nothing of files. */
  lemma {:induction false} NoLinksAtAll(mounts: Mounts, followLast: bool, w: Walk, todo: seq<string>)
    requires WalkOk(mounts, w) && todo != [] && forall c :: c in todo ==> NoSlash(c)
    requires forall p :: p in mounts ==> !mounts[p].supportsSymlinks
    ensures NoLinkMet(mounts, followLast, w, todo) && !MeetsFile(mounts, w, todo)
    decreases |todo|
  {
    var c, rest := todo[0], todo[1..];
    NobodyAsked(mounts, w, c, if rest == [] then followLast else true);
    if rest != [] {
      if Moves(w, c) {
        MovedOk(mounts, w, c, false);
        NoLinksAtAll(mounts, followLast, Moved(mounts, w, c, false), rest);
      } else {
        NoLinksAtAll(mounts, followLast, w, rest);
      }
    }
  }

  lemma NobodyAsked(mounts: Mounts, w: Walk, c: string, follow: bool)
    requires WalkOk(mounts, w) && forall p :: p in mounts ==> !mounts[p].supportsSymlinks
    ensures Asked(mounts, w, c, follow).None?
  {
    var here := w.stack + [c];
    assert here[..w.base] == w.stack[..w.base];
  }

  /** Where the components lead to, while more follow; None if they leave the root. */
  ghost function Way(mounts: Mounts, w: Walk, done: seq<string>): (r: Option<Walk>)
    requires WalkOk(mounts, w) && forall c :: c in done ==> NoSlash(c)
    ensures r.Some? ==> WalkOk(mounts, r.value)
    decreases |done|
  {
    if done == [] then Some(w)
    else
      var c, rest := done[0], done[1..];
      if !Moves(w, c) then if c == ".." then None else Way(mounts, w, rest)
      else MovedOk(mounts, w, c, false); Way(mounts, Moved(mounts, w, c, false), rest)
  }

  ghost predicate FileAt(mounts: Mounts, w: Walk, todo: seq<string>, k: nat)
    requires WalkOk(mounts, w) && k < |todo| && forall c :: c in todo ==> NoSlash(c)
  {
    var here := Way(mounts, w, todo[..k]);
    here.Some? && Moves(here.value, todo[k]) && IsFile(Asked(mounts, here.value, todo[k], true))
  }

  /** A file is in the way if and only if some component before the last leads to one. */
  lemma {:induction false} MeetsFileIff(mounts: Mounts, w: Walk, todo: seq<string>)
    requires WalkOk(mounts, w) && todo != [] && forall c :: c in todo ==> NoSlash(c)
    ensures MeetsFile(mounts, w, todo) <==> exists k :: 0 <= k < |todo| - 1 && FileAt(mounts, w, todo, k)
    decreases |todo|
  {
    var c, rest := todo[0], todo[1..];
    if rest != [] {
      assert todo[..0] == [];
      assert FileAt(mounts, w, todo, 0) <==> Moves(w, c) && IsFile(Asked(mounts, w, c, true));
      if Moves(w, c) || c != ".." {
        var next := if Moves(w, c) then Moved(mounts, w, c, false) else w;
        if Moves(w, c) { MovedOk(mounts, w, c, false); }
        MeetsFileIff(mounts, next, rest);
        forall k | 0 < k < |todo|
          ensures FileAt(mounts, w, todo, k) <==> FileAt(mounts, next, rest, k - 1)
        {
          assert todo[..k][0] == c && todo[..k][1..] == rest[..k - 1];
        }
        if k :| 0 <= k < |rest| - 1 && FileAt(mounts, next, rest, k) {
          assert FileAt(mounts, w, todo, k + 1);
        }
      } else {
        forall k | 0 < k < |todo|
          ensures !FileAt(mounts, w, todo, k)
        {
          assert todo[..k][0] == c;
        }
      }
    }
  }

  /** How many levels the components go down; up counts negatively. */
  function Descent(todo: seq<string>): int
  {
    if todo == [] then 0
    else
      var c := todo[0];
      Descent(todo[1..]) + if c == "" || c == "." then 0 else if c == ".." then -1 else 1
  }

  /** Normalising fails exactly if some prefix of the components goes up further than the stack is high. */
  lemma {:induction false} NormalizeFailsIff(stack: seq<string>, todo: seq<string>)
    ensures Normalize(stack, todo).None? <==> exists k :: 0 <= k <= |todo| && |stack| + Descent(todo[..k]) < 0
    ensures Normalize(stack, todo).Some? ==> |Normalize(stack, todo).value| == |stack| + Descent(todo)
    decreases |todo|
  {
    if todo == [] {
      forall k | 0 <= k <= |todo|
        ensures Descent(todo[..k]) == 0
      {
      }
    } else {
      var c, rest := todo[0], todo[1..];
      var step := if c == "" || c == "." then 0 else if c == ".." then -1 else 1;
      forall k | 0 < k <= |todo|
        ensures Descent(todo[..k]) == Descent(rest[..k - 1]) + step
      {
        assert todo[..k][1..] == rest[..k - 1];
      }
      assert Descent(todo[..0]) == 0;
      if step == -1 && stack == [] {
        assert Descent(rest[..0]) == 0;
        assert |stack| + Descent(todo[..1]) < 0;
      } else {
        var next := Component(stack, c).value;
        NormalizeFailsIff(next, rest);
        if Normalize(next, rest).None? {
          var k :| 0 <= k <= |rest| && |next| + Descent(rest[..k]) < 0;
          assert |stack| + Descent(todo[..k + 1]) < 0;
        } else {
          forall k | 0 <= k <= |todo|
            ensures |stack| + Descent(todo[..k]) >= 0
          {
            if k > 0 { assert |next| + Descent(rest[..k - 1]) >= 0; }
          }
        }
      }
    }
  }

  /** Components before others: the second part starts from where the first ends. */
  lemma {:induction false} NormalizeTwice(stack: seq<string>, a: seq<string>, b: seq<string>)
    ensures var n := Normalize(stack, a);
      Normalize(stack, a + b) == if n.None? then None else Normalize(n.value, b)
    decreases |a|
  {
    if a == [] {
      assert a + b == b;
    } else {
      assert (a + b)[1..] == a[1..] + b;
      var next := Component(stack, a[0]);
      if next.Some? { NormalizeTwice(next.value, a[1..], b); }
    }
  }

  /** A path that has been resolved resolves to itself. */
  lemma {:induction false} ResolvedStays(stack: seq<string>, more: seq<string>)
    requires AllProper(more)
    ensures Normalize(stack, more) == Some(stack + more)
    decreases |more|
  {
    if more == [] {
      assert stack + more == stack;
    } else {
      assert Proper(more[0]);
      ResolvedStays(stack + [more[0]], more[1..]);
      assert stack + [more[0]] + more[1..] == stack + more;
    }
  }

  lemma {:induction false} RenderIsJoin(stack: seq<string>)
    requires stack != []
    ensures Render(stack) == "/" + Join(stack)
    decreases |stack|
  {
    var up, c := stack[..|stack| - 1], stack[|stack| - 1];
    assert stack == up + [c];
    if up != [] {
      RenderIsJoin(up);
      JoinBoth(up, [c]);
    } else {
      assert stack == [c];
    }
  }

  /** The path that a resolution leaves behind comes out of another one unchanged. */
  lemma ResolvedPathStays(mounts: Mounts, followLast: bool, w: Walk, stack: seq<string>)
    requires WalkOk(mounts, w) && w.stack == [] && stack != [] && AllProper(stack)
    requires (forall c :: c in stack ==> NoSlash(c)) && NoLinkMet(mounts, followLast, w, stack) && !MeetsFile(mounts, w, stack)
    ensures Split(Render(stack)[1..]) == stack
    ensures Resolve(mounts, followLast, w, stack).Resolved?
    ensures Resolve(mounts, followLast, w, stack).stack == stack
  {
    RenderIsJoin(stack);
    assert forall c :: c in stack ==> Proper(c);
    SplitJoin(stack);
    assert Render(stack)[1..] == Join(stack);
    ResolvedStays(w.stack, stack);
    assert w.stack + stack == stack;
    ResolveNormalizes(mounts, followLast, w, stack);
  }

  // ----- the file system of the result

  ghost predicate Longest(mounts: Mounts, stack: seq<string>, base: nat)
  {
    base == Outer(mounts, stack, |stack|)
  }

  lemma {:induction false} OuterOfPrefix(mounts: Mounts, s: seq<string>, t: seq<string>, k: nat)
    requires k <= |s| && k <= |t| && s[..k] == t[..k]
    ensures Outer(mounts, s, k) == Outer(mounts, t, k)
    decreases k
  {
    if k > 0 && Render(s[..k]) !in mounts {
      assert s[..k - 1] == s[..k][..k - 1] && t[..k - 1] == t[..k][..k - 1];
      OuterOfPrefix(mounts, s, t, k - 1);
    }
  }

  lemma PushLongest(mounts: Mounts, w: Walk, c: string)
    requires w.base <= |w.stack| && Longest(mounts, w.stack, w.base)
    ensures var here := w.stack + [c];
      Longest(mounts, here, if Render(here) in mounts then |here| else w.base)
  {
    var here := w.stack + [c];
    assert here[..|here|] == here;
    OuterOfPrefix(mounts, here, w.stack, |w.stack|);
  }

  /** Which file system ".." leads to: the right one, unless it ends the path and both mount points are nested. */
  lemma UpLongest(mounts: Mounts, w: Walk, last: bool)
    requires w.stack != [] && w.base <= |w.stack| && Longest(mounts, w.stack, w.base)
    ensures var up := Up(mounts, w, last);
      Longest(mounts, up.stack, up.base) <==>
        !(last && |w.stack| > 1 && Render(w.stack) in mounts && Render(up.stack) in mounts)
  {
    var up := Up(mounts, w, last);
    var k := |up.stack|;
    assert w.stack[..|w.stack|] == w.stack && up.stack[..k] == up.stack;
    OuterOfPrefix(mounts, w.stack, up.stack, k);
  }

  /** The last component is "..", and it leaves a mount point for one that another is mounted on. */
  predicate LeavesNested(mounts: Mounts, stack: seq<string>, todo: seq<string>)
    requires todo != []
  {
    && todo[|todo| - 1] == ".."
    && var before := Normalize(stack, todo[..|todo| - 1]);
       before.Some? && |before.value| > 1 && Render(before.value) in mounts
       && Render(before.value[..|before.value| - 1]) in mounts
  }

  lemma LeavesLater(mounts: Mounts, stack: seq<string>, todo: seq<string>)
    requires |todo| > 1 && Component(stack, todo[0]).Some?
    ensures LeavesNested(mounts, stack, todo) == LeavesNested(mounts, Component(stack, todo[0]).value, todo[1..])
  {
    assert todo[..|todo| - 1][1..] == todo[1..][..|todo[1..]| - 1];
  }

  lemma LeavesNow(mounts: Mounts, stack: seq<string>, c: string)
    ensures LeavesNested(mounts, stack, [c]) <==>
      c == ".." && |stack| > 1 && Render(stack) in mounts && Render(stack[..|stack| - 1]) in mounts
  {
    assert [c][..0] == [];
  }

  lemma MovedLongest(mounts: Mounts, w: Walk, c: string, last: bool)
    requires w.base <= |w.stack| && Longest(mounts, w.stack, w.base) && (c == ".." ==> w.stack != [])
    ensures var next := Moved(mounts, w, c, last);
      Longest(mounts, next.stack, next.base) <==>
        !(last && c == ".." && |w.stack| > 1 && Render(w.stack) in mounts && Render(w.stack[..|w.stack| - 1]) in mounts)
  {
    if c == ".." { UpLongest(mounts, w, last); } else { PushLongest(mounts, w, c); }
  }

  /**
   * If no link is met a path resolves to the file system of its longest mounted prefix,
   * except precisely when its last component is ".." and leaves a nested mount point.
   */
  lemma {:induction false} LongestIff(mounts: Mounts, followLast: bool, w: Walk, todo: seq<string>)
    requires WalkOk(mounts, w) && todo != [] && (forall c :: c in todo ==> NoSlash(c)) && NoLinkMet(mounts, followLast, w, todo)
    requires Longest(mounts, w.stack, w.base)
    ensures var r := Resolve(mounts, followLast, w, todo);
      r.Resolved? ==> (Longest(mounts, r.stack, r.base) <==> !LeavesNested(mounts, w.stack, todo))
    decreases |todo|
  {
    var c, rest := todo[0], todo[1..];
    if rest == [] {
      assert todo == [c];
      LeavesNow(mounts, w.stack, c);
    } else if Component(w.stack, c).Some? {
      LeavesLater(mounts, w.stack, todo);
    }
    if Moves(w, c) {
      var next := Moved(mounts, w, c, rest == []);
      ResolveMoves(mounts, followLast, w, todo);
      MovedOk(mounts, w, c, rest == []);
      MovedLongest(mounts, w, c, rest == []);
      if rest != [] && !IsFile(Asked(mounts, w, c, true)) { LongestIff(mounts, followLast, next, rest); }
    } else if c != ".." && rest != [] {
      LongestIff(mounts, followLast, w, rest);
    }
  }

  // ----- resolving a second time

  /** The stack as a walk in the file system of its longest mounted prefix. */
  function Standing(mounts: Mounts, stack: seq<string>): Walk
  {
    Walk(stack, Outer(mounts, stack, |stack|), 0)
  }

  /** Every component of the stack leads into a directory. */
  ghost predicate Passable(mounts: Mounts, stack: seq<string>)
    requires "/" in mounts && AllProper(stack)
  {
    stack == [] ||
    var up, c := stack[..|stack| - 1], stack[|stack| - 1];
    Passable(mounts, up) && !IsLink(Asked(mounts, Standing(mounts, up), c, true)) && !IsFile(Asked(mounts, Standing(mounts, up), c, true))
  }

  /** So does every component but the last, which is no link that is followed. */
  ghost predicate PassableTo(mounts: Mounts, followLast: bool, stack: seq<string>)
    requires "/" in mounts && AllProper(stack)
  {
    stack == [] ||
    var up, c := stack[..|stack| - 1], stack[|stack| - 1];
    Passable(mounts, up) && !IsLink(Asked(mounts, Standing(mounts, up), c, followLast))
  }

  lemma AskedStanding(mounts: Mounts, w: Walk, c: string, follow: bool)
    requires WalkOk(mounts, w) && Longest(mounts, w.stack, w.base)
    ensures WalkOk(mounts, Standing(mounts, w.stack))
    ensures Asked(mounts, Standing(mounts, w.stack), c, follow) == Asked(mounts, w, c, follow)
  {
  }

  lemma PassableOn(mounts: Mounts, w: Walk, c: string)
    requires WalkOk(mounts, w) && Longest(mounts, w.stack, w.base) && Passable(mounts, w.stack) && Proper(c)
    ensures AllProper(w.stack + [c])
    ensures Passable(mounts, w.stack + [c]) <==> !IsLink(Asked(mounts, w, c, true)) && !IsFile(Asked(mounts, w, c, true))
    ensures PassableTo(mounts, true, w.stack + [c]) <==> !IsLink(Asked(mounts, w, c, true))
    ensures PassableTo(mounts, false, w.stack + [c]) <==> !IsLink(Asked(mounts, w, c, false))
  {
    var s := w.stack + [c];
    assert s[..|s| - 1] == w.stack && s[|s| - 1] == c;
    AskedStanding(mounts, w, c, true);
    AskedStanding(mounts, w, c, false);
  }

  lemma PassableAnyway(mounts: Mounts, followLast: bool, stack: seq<string>)
    requires "/" in mounts && AllProper(stack) && Passable(mounts, stack)
    ensures PassableTo(mounts, followLast, stack)
  {
  }

  /** What a resolution leaves behind is passable. */
  lemma {:induction false} ResolvedPassable(mounts: Mounts, followLast: bool, w: Walk, todo: seq<string>)
    requires WalkOk(mounts, w) && todo != [] && (forall c :: c in todo ==> NoSlash(c)) && NoLinkMet(mounts, followLast, w, todo)
    requires Longest(mounts, w.stack, w.base) && Passable(mounts, w.stack)
    ensures var r := Resolve(mounts, followLast, w, todo);
      r.Resolved? ==> AllProper(r.stack) && PassableTo(mounts, followLast, r.stack)
    decreases |todo|
  {
    var c, rest := todo[0], todo[1..];
    PassableAnyway(mounts, followLast, w.stack);
    if Moves(w, c) {
      var next := Moved(mounts, w, c, rest == []);
      ResolveMoves(mounts, followLast, w, todo);
      MovedOk(mounts, w, c, rest == []);
      MovedLongest(mounts, w, c, rest == []);
      if c != ".." { PassableOn(mounts, w, c); } else { PassableAnyway(mounts, followLast, next.stack); }
      if rest != [] && !IsFile(Asked(mounts, w, c, true)) { ResolvedPassable(mounts, followLast, next, rest); }
    } else if c != ".." && rest != [] {
      ResolvedPassable(mounts, followLast, w, rest);
    }
  }

  /** On the way along a passable stack no link is met, and no file. */
  lemma {:induction false} PassableMeetsNothing(mounts: Mounts, followLast: bool, w: Walk, todo: seq<string>)
    requires WalkOk(mounts, w) && todo != [] && AllProper(todo) && AllProper(w.stack + todo)
    requires Longest(mounts, w.stack, w.base) && PassableTo(mounts, followLast, w.stack + todo)
    ensures (forall c :: c in todo ==> NoSlash(c)) && NoLinkMet(mounts, followLast, w, todo) && !MeetsFile(mounts, w, todo)
    decreases |todo|
  {
    assert Proper(todo[0]) && forall c :: c in todo ==> Proper(c);
    if |todo| == 1 {
      PassableEnd(mounts, followLast, w, todo);
    } else {
      PassableStep(mounts, followLast, w, todo);
      PassableMeetsNothing(mounts, followLast, Moved(mounts, w, todo[0], false), todo[1..]);
    }
  }

  lemma PassableEnd(mounts: Mounts, followLast: bool, w: Walk, todo: seq<string>)
    requires WalkOk(mounts, w) && |todo| == 1 && AllProper(todo) && AllProper(w.stack + todo)
    requires Longest(mounts, w.stack, w.base) && PassableTo(mounts, followLast, w.stack + todo)
    ensures !IsLink(Asked(mounts, w, todo[0], followLast))
  {
    var s := w.stack + todo;
    assert s[..|s| - 1] == w.stack && s[|s| - 1] == todo[0];
    AskedStanding(mounts, w, todo[0], followLast);
  }

  lemma PassableStep(mounts: Mounts, followLast: bool, w: Walk, todo: seq<string>)
    requires WalkOk(mounts, w) && |todo| > 1 && AllProper(todo) && AllProper(w.stack + todo)
    requires Longest(mounts, w.stack, w.base) && PassableTo(mounts, followLast, w.stack + todo)
    ensures !IsLink(Asked(mounts, w, todo[0], true)) && !IsFile(Asked(mounts, w, todo[0], true)) && Moves(w, todo[0])
    ensures var next := Moved(mounts, w, todo[0], false);
      && WalkOk(mounts, next) && Longest(mounts, next.stack, next.base)
      && next.stack + todo[1..] == w.stack + todo && AllProper(todo[1..])
  {
    assert Proper(todo[0]) && todo == [todo[0]] + todo[1..];
    PassableFirst(mounts, w.stack, todo, followLast);
    PassableOn(mounts, w, todo[0]);
    ProperMove(mounts, w, todo[0], todo[1..]);
  }

  lemma ProperMove(mounts: Mounts, w: Walk, c: string, rest: seq<string>)
    requires WalkOk(mounts, w) && Proper(c) && Longest(mounts, w.stack, w.base)
    ensures var next := Moved(mounts, w, c, false);
      WalkOk(mounts, next) && Longest(mounts, next.stack, next.base) && next.stack + rest == w.stack + ([c] + rest)
  {
    MovedOk(mounts, w, c, false);
    MovedLongest(mounts, w, c, false);
    assert w.stack + [c] + rest == w.stack + ([c] + rest);
  }

  /** The beginning of a passable stack, when more than one component follows. */
  lemma PassableFirst(mounts: Mounts, stack: seq<string>, todo: seq<string>, followLast: bool)
    requires "/" in mounts && |todo| > 1 && AllProper(stack + todo) && PassableTo(mounts, followLast, stack + todo)
    ensures AllProper(stack + [todo[0]]) && AllProper(stack)
    ensures Passable(mounts, stack + [todo[0]]) && Passable(mounts, stack)
  {
    var s, next := stack + todo, stack + [todo[0]];
    PassablePrefix(mounts, s[..|s| - 1], |next|);
    assert s[..|s| - 1][..|next|] == next;
    PassablePrefix(mounts, next, |stack|);
    assert next[..|stack|] == stack;
  }

  lemma {:induction false} PassablePrefix(mounts: Mounts, stack: seq<string>, k: nat)
    requires "/" in mounts && AllProper(stack) && Passable(mounts, stack) && k <= |stack|
    ensures AllProper(stack[..k]) && Passable(mounts, stack[..k])
    decreases |stack|
  {
    if k < |stack| {
      PassablePrefix(mounts, stack[..|stack| - 1], k);
      assert stack[..|stack| - 1][..k] == stack[..k];
    } else {
      assert stack[..k] == stack;
    }
  }

  /** Resolving what a resolution without links has left behind changes nothing. */
  lemma ResolveTwice(mounts: Mounts, followLast: bool, todo: seq<string>)
    requires "/" in mounts && todo != [] && (forall c :: c in todo ==> NoSlash(c))
    requires NoLinkMet(mounts, followLast, Walk([], 0, 0), todo)
    ensures var r := Resolve(mounts, followLast, Walk([], 0, 0), todo);
      r.Resolved? && r.stack != [] ==>
        && (forall c :: c in r.stack ==> NoSlash(c)) && Split(Render(r.stack)[1..]) == r.stack
        && Resolve(mounts, followLast, Walk([], 0, 0), r.stack).Resolved?
        && Resolve(mounts, followLast, Walk([], 0, 0), r.stack).stack == r.stack
  {
    var w := Walk([], 0, 0);
    var r := Resolve(mounts, followLast, w, todo);
    ResolvedPassable(mounts, followLast, w, todo);
    ResolvedIsProper(mounts, followLast, w, todo);
    if r.Resolved? && r.stack != [] {
      assert w.stack + r.stack == r.stack;
      PassableMeetsNothing(mounts, followLast, w, r.stack);
      ResolvedPathStays(mounts, followLast, w, r.stack);
    }
  }

  // ----- the exception is real

  /** With /a mounted on / and /a/b on /a, the path /a/b/.. leads to the root's file system, not to that of /a. */
  lemma NestedMountEscapes(mounts: Mounts, a: string, b: string, c: string)
    requires "/" in mounts && Proper(a) && Proper(b) && c == ".."
    requires Render([a]) in mounts && Render([a, b]) in mounts
    ensures Resolve(mounts, true, Walk([], 0, 0), [a, b, c]) == Resolved([a], 0)
    ensures Outer(mounts, [a], 1) == 1
  {
    var ab, todo := [a, b], [a, b, c];
    assert [] + [a] == [a] && [a] + [b] == ab && ab[..1] == [a] && [a][..1] == [a] && ab[..2] == ab;
    assert todo[1..] == [b, c] && todo[1..][1..] == [c];
    var w1, w2 := Walk([a], 1, 0), Walk(ab, 2, 0);
    ResolveMoves(mounts, true, Walk([], 0, 0), todo);
    ResolveMoves(mounts, true, w1, todo[1..]);
    ResolveMoves(mounts, true, w2, [c]);
    assert Up(mounts, w2, true) == Walk([a], 0, 0);
  }
}
