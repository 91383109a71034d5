// What resolving a path through a symbolic link promises: the link is replaced by its
// target, and only once in a resolution.

module LinkTheorems {
  import opened Common
  import opened Paths
  import opened PathTheorems

  /** The components, while more follow, lead past neither a link nor a file, and not above the root. */
  ghost predicate Passes(mounts: Mounts, w: Walk, done: seq<string>)
    requires WalkOk(mounts, w) && Clean(done)
    ensures Passes(mounts, w, done) ==> Way(mounts, w, done).Some?
    decreases |done|
  {
    if done == [] then true
    else
      var c, rest := done[0], done[1..];
      if !Moves(w, c) then c != ".." && Passes(mounts, w, rest)
      else
        MovedOk(mounts, w, c, false);
        !IsLink(Asked(mounts, w, c, true)) && !IsFile(Asked(mounts, w, c, true)) && Passes(mounts, Moved(mounts, w, c, false), rest)
  }

  /** The k-th component is the first link that is met, and target is what reading it gives. */
  ghost predicate FirstLink(mounts: Mounts, followLast: bool, w: Walk, todo: seq<string>, k: nat, target: Option<string>)
    requires WalkOk(mounts, w) && k < |todo| && Clean(todo)
  {
    && Passes(mounts, w, todo[..k])
    && var here := Way(mounts, w, todo[..k]).value;
       Moves(here, todo[k]) && Asked(mounts, here, todo[k], if k == |todo| - 1 then followLast else true) == Some(Symlink(target))
  }

  lemma FirstLinkLater(mounts: Mounts, followLast: bool, w: Walk, todo: seq<string>, k: nat, target: Option<string>)
    requires WalkOk(mounts, w) && k + 1 < |todo| && Clean(todo)
    requires Passes(mounts, w, todo[..1])
    ensures var next := Way(mounts, w, todo[..1]).value;
      FirstLink(mounts, followLast, w, todo, k + 1, target) <==> FirstLink(mounts, followLast, next, todo[1..], k, target)
  {
    var done := todo[..k + 1];
    assert done[0] == todo[0] && done[1..] == todo[1..][..k];
    var c := todo[0];
    assert todo[..1][1..] == [];
    if Moves(w, c) {
      MovedOk(mounts, w, c, false);
      assert Way(mounts, w, todo[..1]) == Some(Moved(mounts, w, c, false));
    } else {
      assert Way(mounts, w, todo[..1]) == Some(w);
    }
  }

  /** Either no link is met, or there is a first one. */
  lemma {:induction false} LinkOrNone(mounts: Mounts, followLast: bool, w: Walk, todo: seq<string>)
    requires WalkOk(mounts, w) && todo != [] && Clean(todo)
    ensures NoLinkMet(mounts, followLast, w, todo) <==>
      forall k, t :: 0 <= k < |todo| ==> !FirstLink(mounts, followLast, w, todo, k, t)
    decreases |todo|
  {
    var c, rest := todo[0], todo[1..];
    assert todo[..0] == [] && todo[..1][1..] == [];
    var node := Asked(mounts, w, c, if rest == [] then followLast else true);
    if Moves(w, c) && IsLink(node) {
      assert FirstLink(mounts, followLast, w, todo, 0, node.value.target);
    } else {
      assert forall t :: !FirstLink(mounts, followLast, w, todo, 0, t);
      if Passes(mounts, w, todo[..1]) && rest != [] {
        NoneInRest(mounts, followLast, w, todo);
      } else {
        NotPassed(mounts, followLast, w, todo);
      }
    }
  }

  lemma {:induction false} NoneInRest(mounts: Mounts, followLast: bool, w: Walk, todo: seq<string>)
    requires WalkOk(mounts, w) && |todo| > 1 && Clean(todo) && Passes(mounts, w, todo[..1])
    requires forall t :: !FirstLink(mounts, followLast, w, todo, 0, t)
    ensures NoLinkMet(mounts, followLast, w, todo) <==>
      forall k, t :: 0 <= k < |todo| ==> !FirstLink(mounts, followLast, w, todo, k, t)
    decreases |todo|, 0
  {
    var next := Way(mounts, w, todo[..1]).value;
    var rest := todo[1..];
    LinkOrNone(mounts, followLast, next, rest);
    forall k, t | 0 < k < |todo|
      ensures FirstLink(mounts, followLast, w, todo, k, t) <==> FirstLink(mounts, followLast, next, rest, k - 1, t)
    {
      FirstLinkLater(mounts, followLast, w, todo, k - 1, t);
    }
    if k, t :| 0 <= k < |rest| && FirstLink(mounts, followLast, next, rest, k, t) {
      assert FirstLink(mounts, followLast, w, todo, k + 1, t);
    }
    assert todo[..1][1..] == [];
    if Moves(w, todo[0]) { MovedOk(mounts, w, todo[0], false); }
    assert NoLinkMet(mounts, followLast, w, todo) <==> NoLinkMet(mounts, followLast, next, rest);
  }

  lemma NotPassed(mounts: Mounts, followLast: bool, w: Walk, todo: seq<string>)
    requires WalkOk(mounts, w) && todo != [] && Clean(todo) && (|todo| == 1 || !Passes(mounts, w, todo[..1]))
    requires !(Moves(w, todo[0]) && IsLink(Asked(mounts, w, todo[0], if |todo| == 1 then followLast else true)))
    ensures NoLinkMet(mounts, followLast, w, todo)
    ensures forall k, t :: 0 < k < |todo| ==> !FirstLink(mounts, followLast, w, todo, k, t)
  {
    assert todo[..1][1..] == [];
    if Moves(w, todo[0]) { MovedOk(mounts, w, todo[0], false); }
    forall k, t | 0 < k < |todo|
      ensures !FirstLink(mounts, followLast, w, todo, k, t)
    {
      assert todo[..k][0] == todo[0];
    }
  }

  // ----- replacing a link

  /** What lies before the link is passed, whatever comes behind. */
  lemma {:induction false} PassedOn(mounts: Mounts, followLast: bool, w: Walk, done: seq<string>, more: seq<string>)
    requires WalkOk(mounts, w) && Clean(done) && Clean(more) && more != [] && Passes(mounts, w, done)
    ensures Clean(done + more) && Resolve(mounts, followLast, w, done + more) == Resolve(mounts, followLast, Way(mounts, w, done).value, more)
    decreases |done|
  {
    var todo := done + more;
    if done == [] {
      assert todo == more;
    } else {
      assert todo[0] == done[0] && todo[1..] == done[1..] + more && |todo| > 1;
      if Moves(w, done[0]) {
        MovedOk(mounts, w, done[0], false);
        ResolveMoves(mounts, followLast, w, todo);
        PassedOn(mounts, followLast, Moved(mounts, w, done[0], false), done[1..], more);
      } else {
        PassedOn(mounts, followLast, w, done[1..], more);
      }
    }
  }

  /** The way does not depend on how many links have been followed. */
  lemma {:induction false} WayAnyLinks(mounts: Mounts, w: Walk, done: seq<string>, n: nat)
    requires WalkOk(mounts, w) && Clean(done) && Passes(mounts, w, done) && n <= MAX_LINKS
    ensures var v := w.(links := n);
      WalkOk(mounts, v) && Passes(mounts, v, done) && Way(mounts, v, done) == Some(Way(mounts, w, done).value.(links := n))
    ensures Way(mounts, w, done).value.links == w.links && Normalize(w.stack, done) == Some(Way(mounts, w, done).value.stack)
    decreases |done|
  {
    if done != [] {
      if Moves(w, done[0]) {
        MovedOk(mounts, w, done[0], false);
        WayAnyLinks(mounts, Moved(mounts, w, done[0], false), done[1..], n);
      } else {
        WayAnyLinks(mounts, w, done[1..], n);
      }
    }
  }

  /** The path that takes the place of one that leads through a link in the directory stack, with rest behind it. */
  function NewPath(stack: seq<string>, target: string, rest: seq<string>): string
    requires target != ""
  {
    (if target[0] == SLASH then target else Render(stack) + "/" + target) + (if rest == [] then "" else "/" + Join(rest))
  }

  lemma AtLink(mounts: Mounts, followLast: bool, w: Walk, todo: seq<string>, target: Option<string>)
    requires WalkOk(mounts, w) && todo != [] && Clean(todo) && Moves(w, todo[0])
    requires Asked(mounts, w, todo[0], if |todo| == 1 then followLast else true) == Some(Symlink(target))
    ensures Resolve(mounts, followLast, w, todo) ==
      if w.links + 1 >= MAX_LINKS then Failed(ELOOP)
      else if target.Some? then Follow(mounts, followLast, w.(links := w.links + 1), target.value, todo[1..])
      else AfterMove(mounts, followLast, Pushed(mounts, w, todo[0]), todo[1..])
  {
    KeepsMount(mounts, w, todo[0]);
  }

  /** A link that cannot be read counts as one that was followed. */
  ghost function Pushed(mounts: Mounts, w: Walk, c: string): (r: Walk)
    requires WalkOk(mounts, w) && Proper(c) && w.links < MAX_LINKS
    ensures WalkOk(mounts, r)
  {
    KeepsMount(mounts, w, c);
    Walk(w.stack + [c], w.base, w.links + 1)
  }

  lemma KeepsMount(mounts: Mounts, w: Walk, c: string)
    requires w.base <= |w.stack|
    ensures (w.stack + [c])[..w.base] == w.stack[..w.base]
  {
  }

  /** A resolution that comes to a link comes to what the link says. */
  lemma ToTheLink(mounts: Mounts, followLast: bool, w: Walk, todo: seq<string>, k: nat, target: Option<string>)
    requires WalkOk(mounts, w) && k < |todo| && Clean(todo) && FirstLink(mounts, followLast, w, todo, k, target)
    ensures var here := Way(mounts, w, todo[..k]).value;
      && here.links == w.links
      && Resolve(mounts, followLast, w, todo) ==
           if w.links + 1 >= MAX_LINKS then Failed(ELOOP)
           else if target.Some? then Follow(mounts, followLast, here.(links := w.links + 1), target.value, todo[k + 1..])
           else AfterMove(mounts, followLast, Pushed(mounts, here, todo[k]), todo[k + 1..])
  {
    var here := Way(mounts, w, todo[..k]).value;
    WayAnyLinks(mounts, w, todo[..k], w.links);
    assert todo == todo[..k] + todo[k..] && todo[k..][1..] == todo[k + 1..];
    PassedOn(mounts, followLast, w, todo[..k], todo[k..]);
    AtLink(mounts, followLast, here, todo[k..], target);
  }

  /** After n links, todo leads from w to a link with this target, with rest behind it, and resolves to r. */
  ghost predicate LeadsTo(mounts: Mounts, followLast: bool, w: Walk, todo: seq<string>, n: nat, target: string, rest: seq<string>, r: Outcome)
  {
    && WalkOk(mounts, w) && w.links == n && Clean(todo) && |rest| < |todo| && todo[|todo| - |rest|..] == rest
    && FirstLink(mounts, followLast, w, todo, |todo| - |rest| - 1, Some(target))
    && r == Resolve(mounts, followLast, w, todo)
  }

  /** What an absolute link leads to does not depend on the walk to it. */
  lemma AbsoluteIs(mounts: Mounts, followLast: bool, w: Walk, todo: seq<string>, n: nat, target: string, rest: seq<string>, r: Outcome)
    requires LeadsTo(mounts, followLast, w, todo, n, target, rest, r) && target != "" && target[0] == SLASH
    ensures "/" in mounts && Clean(rest) && n <= MAX_LINKS
    ensures r == if n + 1 >= MAX_LINKS then Failed(ELOOP) else Follow(mounts, followLast, Walk([], 0, n + 1), target, rest)
  {
    ToTheLink(mounts, followLast, w, todo, |todo| - |rest| - 1, Some(target));
  }

  /** An absolute link leads to the same outcome wherever it is found, and from whatever walk. */
  lemma AbsoluteAnywhere(mounts: Mounts, followLast: bool, w: Walk, todo: seq<string>, w': Walk, todo': seq<string>,
                         n: nat, target: string, rest: seq<string>, r: Outcome, r': Outcome)
    requires target != "" && target[0] == SLASH
    requires LeadsTo(mounts, followLast, w, todo, n, target, rest, r) && LeadsTo(mounts, followLast, w', todo', n, target, rest, r')
    ensures r == r'
  {
    AbsoluteIs(mounts, followLast, w, todo, n, target, rest, r);
    AbsoluteIs(mounts, followLast, w', todo', n, target, rest, r');
  }

  /**
   * Following a link is replacing it: by the components of its target if that is relative, and it and
   * all before it if that is absolute.
   */
  lemma LinkIsReplaced(mounts: Mounts, followLast: bool, w: Walk, todo: seq<string>, k: nat, target: string)
    requires WalkOk(mounts, w) && k < |todo| && Clean(todo) && FirstLink(mounts, followLast, w, todo, k, Some(target))
    requires w.links + 1 < MAX_LINKS && target != ""
    ensures Clean(Split(target[1..]) + todo[k + 1..]) && Clean(todo[..k] + (Split(target) + todo[k + 1..]))
    ensures Resolve(mounts, followLast, w, todo) ==
      if |NewPath(Way(mounts, w, todo[..k]).value.stack, target, todo[k + 1..])| > PATH_MAX then Failed(ENAMETOOLONG)
      else if target[0] == SLASH then Resolve(mounts, followLast, Walk([], 0, w.links + 1), Split(target[1..]) + todo[k + 1..])
      else Resolve(mounts, followLast, w.(links := w.links + 1), todo[..k] + (Split(target) + todo[k + 1..]))
  {
    var rest := todo[k + 1..];
    SplitClean(target);
    SplitClean(target[1..]);
    ToTheLink(mounts, followLast, w, todo, k, Some(target));
    WayAnyLinks(mounts, w, todo[..k], w.links + 1);
    PassedOn(mounts, followLast, w.(links := w.links + 1), todo[..k], Split(target) + rest);
  }

  /** Where the resolution starts again, with one link followed, and with what. */
  ghost function Restart(w: Walk, target: string): Walk
    requires target != ""
  {
    if target[0] == SLASH then Walk([], 0, 1) else w.(links := 1)
  }

  ghost function Replaced(todo: seq<string>, k: nat, target: string): seq<string>
    requires k < |todo| && target != ""
  {
    if target[0] == SLASH then Split(target[1..]) + todo[k + 1..] else todo[..k] + (Split(target) + todo[k + 1..])
  }

  lemma RestartOk(mounts: Mounts, w: Walk, todo: seq<string>, k: nat, target: string)
    requires WalkOk(mounts, w) && k < |todo| && Clean(todo) && target != ""
    ensures WalkOk(mounts, Restart(w, target)) && Clean(Replaced(todo, k, target)) && Replaced(todo, k, target) != []
  {
    SplitClean(target);
    SplitClean(target[1..]);
  }

  /** With one link followed, the next one that is met is one too many. */
  lemma SecondLink(mounts: Mounts, followLast: bool, w: Walk, todo: seq<string>)
    requires WalkOk(mounts, w) && w.links == 1 && todo != [] && Clean(todo) && !NoLinkMet(mounts, followLast, w, todo)
    ensures Resolve(mounts, followLast, w, todo) == Failed(ELOOP)
  {
    LinkOrNone(mounts, followLast, w, todo);
    var k, t :| 0 <= k < |todo| && FirstLink(mounts, followLast, w, todo, k, t);
    ToTheLink(mounts, followLast, w, todo, k, t);
  }

  /** The new path is too long, or its resolution comes to r. */
  ghost predicate Restarts(mounts: Mounts, followLast: bool, start: Walk, more: seq<string>, length: nat, r: Outcome)
  {
    && WalkOk(mounts, start) && more != [] && Clean(more) && start.links == 1
    && r == if length > PATH_MAX then Failed(ENAMETOOLONG) else Resolve(mounts, followLast, start, more)
  }

  lemma LinkRestarts(mounts: Mounts, followLast: bool, w: Walk, todo: seq<string>, k: nat, target: string, r: Outcome)
    requires WalkOk(mounts, w) && w.links == 0 && k < |todo| && Clean(todo)
    requires FirstLink(mounts, followLast, w, todo, k, Some(target)) && target != "" && r == Resolve(mounts, followLast, w, todo)
    ensures Restarts(mounts, followLast, Restart(w, target), Replaced(todo, k, target),
                     |NewPath(Way(mounts, w, todo[..k]).value.stack, target, todo[k + 1..])|, r)
  {
    RestartOk(mounts, w, todo, k, target);
    LinkIsReplaced(mounts, followLast, w, todo, k, target);
  }

  /** r is what the components come to, when one link has been followed. */
  ghost predicate AfterLink(mounts: Mounts, followLast: bool, w: Walk, todo: seq<string>, r: Outcome)
    requires WalkOk(mounts, w) && todo != [] && Clean(todo)
  {
    var n := Normalize(w.stack, todo);
    if !NoLinkMet(mounts, followLast, w, todo) then r == Failed(ELOOP)
    else if MeetsFile(mounts, w, todo) then r == Failed(ENOTDIR)
    else if n.None? then r == Failed(ENOENT)
    else r.Resolved? && r.stack == n.value
  }

  lemma AfterLinkIs(mounts: Mounts, followLast: bool, w: Walk, todo: seq<string>, length: nat, r: Outcome)
    requires Restarts(mounts, followLast, w, todo, length, r)
    ensures length <= PATH_MAX ==> AfterLink(mounts, followLast, w, todo, r)
    ensures r.Resolved? ==> NoLinkMet(mounts, followLast, w, todo) && r == Resolve(mounts, followLast, w, todo)
  {
    if NoLinkMet(mounts, followLast, w, todo) {
      ResolveNormalizes(mounts, followLast, w, todo);
    } else {
      SecondLink(mounts, followLast, w, todo);
    }
  }

  /**
   * A path that leads to a readable link resolves, if it leads to no other, to what its components come to
   * with the target in the place of the link, or from the root if the target is absolute; a second link fails.
   */
  lemma OneLinkNormalizes(mounts: Mounts, followLast: bool, w: Walk, todo: seq<string>, k: nat, target: string, r: Outcome)
    requires WalkOk(mounts, w) && w.links == 0 && k < |todo| && Clean(todo)
    requires FirstLink(mounts, followLast, w, todo, k, Some(target)) && target != "" && r == Resolve(mounts, followLast, w, todo)
    ensures WalkOk(mounts, Restart(w, target)) && Clean(Replaced(todo, k, target)) && Replaced(todo, k, target) != []
    ensures var length := |NewPath(Way(mounts, w, todo[..k]).value.stack, target, todo[k + 1..])|;
      if length > PATH_MAX then r == Failed(ENAMETOOLONG)
      else AfterLink(mounts, followLast, Restart(w, target), Replaced(todo, k, target), r)
  {
    var length := |NewPath(Way(mounts, w, todo[..k]).value.stack, target, todo[k + 1..])|;
    LinkRestarts(mounts, followLast, w, todo, k, target, r);
    AfterLinkIs(mounts, followLast, Restart(w, target), Replaced(todo, k, target), length, r);
  }

  /** An empty link fails; one that cannot be read passes for a component, but still counts. */
  lemma OddLinks(mounts: Mounts, followLast: bool, w: Walk, todo: seq<string>, k: nat, target: Option<string>)
    requires WalkOk(mounts, w) && w.links == 0 && k < |todo| && Clean(todo) && FirstLink(mounts, followLast, w, todo, k, target)
    ensures target == Some("") ==> Resolve(mounts, followLast, w, todo) == Failed(ENOENT)
    ensures Way(mounts, w, todo[..k]).value.links == 0
    ensures target.None? ==>
      var r := Resolve(mounts, followLast, w, todo);
      var next := Pushed(mounts, Way(mounts, w, todo[..k]).value, todo[k]);
      && Normalize(w.stack, todo[..k + 1]) == Some(next.stack)
      && if k + 1 == |todo| then r.Resolved? && r.stack == next.stack
         else if !NoLinkMet(mounts, followLast, next, todo[k + 1..]) then r == Failed(ELOOP)
         else r == Resolve(mounts, followLast, next, todo[k + 1..])
  {
    ToTheLink(mounts, followLast, w, todo, k, target);
    if target.None? {
      WayAnyLinks(mounts, w, todo[..k], 0);
      assert todo[..k + 1] == todo[..k] + [todo[k]] && [todo[k]][1..] == [];
      NormalizeTwice(w.stack, todo[..k], [todo[k]]);
      var next := Pushed(mounts, Way(mounts, w, todo[..k]).value, todo[k]);
      if k + 1 < |todo| && !NoLinkMet(mounts, followLast, next, todo[k + 1..]) { SecondLink(mounts, followLast, next, todo[k + 1..]); }
    }
  }

  /** Through a link too, a path resolves to the file system of its longest mounted prefix, but for the one exception. */
  lemma LongestThroughLink(mounts: Mounts, followLast: bool, w: Walk, todo: seq<string>, k: nat, target: string, r: Outcome)
    requires WalkOk(mounts, w) && w.links == 0 && k < |todo| && Clean(todo) && Longest(mounts, w.stack, w.base)
    requires FirstLink(mounts, followLast, w, todo, k, Some(target)) && target != "" && r == Resolve(mounts, followLast, w, todo)
    requires r.Resolved?
    ensures Longest(mounts, r.stack, r.base) <==>
      !LeavesNested(mounts, if target[0] == SLASH then [] else w.stack, Replaced(todo, k, target))
  {
    var length := |NewPath(Way(mounts, w, todo[..k]).value.stack, target, todo[k + 1..])|;
    LinkRestarts(mounts, followLast, w, todo, k, target, r);
    AfterLinkIs(mounts, followLast, Restart(w, target), Replaced(todo, k, target), length, r);
    LongestIff(mounts, followLast, Restart(w, target), Replaced(todo, k, target));
  }

  /** Without followLast a link at the end of the path is not followed: it is what the path resolves to. */
  lemma LastLinkKept(mounts: Mounts, w: Walk, todo: seq<string>)
    requires WalkOk(mounts, w) && todo != [] && Clean(todo) && Passes(mounts, w, todo[..|todo| - 1])
    ensures var r, n := Resolve(mounts, false, w, todo), Normalize(w.stack, todo);
      if n.None? then r == Failed(ENOENT) else r.Resolved? && r.stack == n.value
  {
    var k := |todo| - 1;
    var here, last := Way(mounts, w, todo[..k]).value, todo[k..];
    assert todo == todo[..k] + last && last[1..] == [];
    WayAnyLinks(mounts, w, todo[..k], w.links);
    PassedOn(mounts, false, w, todo[..k], last);
    NormalizeTwice(w.stack, todo[..k], last);
    NotAsked(mounts, here, todo[k]);
    ResolveNormalizes(mounts, false, here, last);
  }

  lemma NotAsked(mounts: Mounts, w: Walk, c: string)
    requires WalkOk(mounts, w)
    ensures Asked(mounts, w, c, false) == None
  {
    KeepsMount(mounts, w, c);
  }

  /** The last mount point on the way names the file system that is asked, and the rest of the path the node. */
  lemma AskedIs(mounts: Mounts, w: Walk, c: string, n: Node)
    requires WalkOk(mounts, w)
    ensures var fs := if w.base == 0 then mounts["/"] else mounts[Render(w.stack[..w.base])];
      var name := Join(w.stack[w.base..] + [c]);
      Asked(mounts, w, c, true) == Some(n) <==>
        && c != ".." && Render(w.stack + [c]) !in mounts
        && fs.supportsSymlinks && name in fs.nodes && fs.nodes[name] == n
  {
    var here := w.stack + [c];
    KeepsMount(mounts, w, c);
    assert here[w.base..] == w.stack[w.base..] + [c];
  }

  /** The file system of a result is the one mounted on its longest mounted prefix, or else the root's. */
  lemma LongestFileSystem(mounts: Mounts, stack: seq<string>, base: nat, j: nat)
    requires WalkOk(mounts, Walk(stack, base, 0)) && Longest(mounts, stack, base) && j <= |stack|
    requires j > 0 ==> Render(stack[..j]) in mounts
    requires forall i :: j < i <= |stack| ==> Render(stack[..i]) !in mounts
    ensures FsAt(mounts, stack, base) == if j == 0 then mounts["/"] else mounts[Render(stack[..j])]
  {
    assert base == j;
  }
}
