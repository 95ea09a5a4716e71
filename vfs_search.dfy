/**
  The two traversals day7.py runs over the finished tree: `recurse_filesystem`
  (the bounded sum of directory sizes) and `find_smallest` (the smallest
  directory size that reaches a threshold).
 */
module VfsSearch {

  import opened Common
  import opened VfsSpec
  import opened VfsTree

  // ---------------------------------------------------------------------
  // The directories below a node, in the order the recursion meets them

  /** The directories at and below `id`: a directory, then those below each child in turn. */
  ghost function Preorder(t: Tree, id: NodeId): (r: seq<NodeId>)
    requires Ranked(t) && id in t.nodes
    ensures forall x | x in r :: IsDir(t.nodes, x)
    decreases t.rank[id], 1
  {
    match t.nodes[id].kind
    case File(_) => []
    case Dir(cs, _) =>
      assert ChildrenRanked(t, id);
      [id] + PreorderAll(t, cs, t.rank[id])
  }

  ghost function PreorderAll(t: Tree, cs: seq<NodeId>, bound: nat): (r: seq<NodeId>)
    requires Ranked(t)
    requires forall c: NodeId | c in cs :: c in t.nodes && t.rank[c] < bound
    ensures forall x | x in r :: IsDir(t.nodes, x)
    decreases bound, 0, |cs|
  {
    if cs == [] then []
    else PreorderAll(t, cs[..|cs| - 1], bound) + Preorder(t, cs[|cs| - 1])
  }

  predicate NoDup(s: seq<NodeId>) {
    forall i, j | 0 <= i < j < |s| :: s[i] != s[j]
  }

  lemma DirsInUnion(nodes: Nodes, a: set<NodeId>, b: set<NodeId>)
    ensures DirsIn(nodes, a + b) == DirsIn(nodes, a) + DirsIn(nodes, b)
  {
  }

  /** The preorder lists exactly the directories below `id`. */
  lemma {:induction false} PreorderElems(t: Tree, id: NodeId)
    requires Ranked(t) && id in t.nodes
    ensures forall x :: x in Preorder(t, id) <==> x in ReachDirs(t, id)
    decreases t.rank[id], 1
  {
    match t.nodes[id].kind
    case File(_) =>
      assert Reach(t, id) == {id};
    case Dir(cs, _) =>
      assert ChildrenRanked(t, id);
      PreorderAllElems(t, cs, t.rank[id]);
      DirsInUnion(t.nodes, {id}, ReachAll(t, cs, t.rank[id]));
  }

  lemma {:induction false} PreorderAllElems(t: Tree, cs: seq<NodeId>, bound: nat)
    requires Ranked(t)
    requires forall c: NodeId | c in cs :: c in t.nodes && t.rank[c] < bound
    ensures forall x :: x in PreorderAll(t, cs, bound) <==> x in DirsIn(t.nodes, ReachAll(t, cs, bound))
    decreases bound, 0, |cs|
  {
    if cs != [] {
      var n := |cs| - 1;
      PreorderAllElems(t, cs[..n], bound);
      PreorderElems(t, cs[n]);
      DirsInUnion(t.nodes, ReachAll(t, cs[..n], bound), Reach(t, cs[n]));
    }
  }

  /** Following parent pointers from a child of `d` never meets a sibling of it. */
  lemma SiblingNotAncestor(t: Tree, d: NodeId, a: NodeId, b: NodeId)
    requires Ranked(t) && Linked(t.nodes) && IsDir(t.nodes, d)
    requires a in Children(t.nodes, d) && b in Children(t.nodes, d) && a != b
    ensures a in t.nodes && b in t.nodes && a !in Ancestors(t, b)
  {
    ChildOf(t, d, a);
    ChildOf(t, d, b);
    assert t.nodes[b].parent == Some(d);
    assert Ancestors(t, b) == {b} + Ancestors(t, d);
    forall y | y in Ancestors(t, d) ensures t.rank[d] <= t.rank[y] {
      AncestorsInNodes(t, d, y);
    }
  }

  /** The subtrees of two different children of a directory share no node. */
  lemma ReachDisjoint(t: Tree, d: NodeId, a: NodeId, b: NodeId, x: NodeId)
    requires Ranked(t) && Linked(t.nodes) && IsDir(t.nodes, d)
    requires a in Children(t.nodes, d) && b in Children(t.nodes, d) && a != b
    requires a in t.nodes && x in Reach(t, a)
    ensures b in t.nodes && x !in Reach(t, b)
  {
    ReachAncestors(t, a, x);
    SiblingNotAncestor(t, d, a, b);
    SiblingNotAncestor(t, d, b, a);
    if x in Reach(t, b) {
      ReachAncestors(t, b, x);
      AncestorsChain(t, x, a, b);
      assert false;
    }
  }

  lemma NoDupConcat(a: seq<NodeId>, b: seq<NodeId>)
    requires NoDup(a) && NoDup(b)
    requires forall x | x in a :: x !in b
    ensures NoDup(a + b)
  {
    forall i, j | 0 <= i < j < |a + b| ensures (a + b)[i] != (a + b)[j] {
      if j >= |a| && i < |a| {
        assert (a + b)[i] in a && (a + b)[j] == b[j - |a|];
      }
    }
  }

  /** In a well-formed tree no directory is listed twice. */
  lemma {:induction false} PreorderNoDup(t: Tree, id: NodeId)
    requires Ranked(t) && Linked(t.nodes) && SiblingsDistinct(t.nodes) && id in t.nodes
    ensures NoDup(Preorder(t, id))
    decreases t.rank[id], 1
  {
    match t.nodes[id].kind
    case File(_) =>
    case Dir(cs, _) =>
      assert ChildrenRanked(t, id);
      assert DistinctNames(t.nodes, cs);
      PreorderAllNoDup(t, id, cs);
      PreorderAllElems(t, cs, t.rank[id]);
      forall x | x in PreorderAll(t, cs, t.rank[id]) ensures x != id {
        ReachAllMember(t, cs, t.rank[id], x);
        var j :| 0 <= j < |cs| && x in Reach(t, cs[j]);
        ReachInNodes(t, cs[j], x);
      }
      NoDupConcat([id], PreorderAll(t, cs, t.rank[id]));
  }

  lemma {:induction false} PreorderAllNoDup(t: Tree, d: NodeId, cs: seq<NodeId>)
    requires Ranked(t) && Linked(t.nodes) && SiblingsDistinct(t.nodes) && IsDir(t.nodes, d)
    requires forall c: NodeId | c in cs :: c in Children(t.nodes, d) && c in t.nodes && t.rank[c] < t.rank[d]
    requires DistinctNames(t.nodes, cs)
    ensures NoDup(PreorderAll(t, cs, t.rank[d]))
    decreases t.rank[d], 0, |cs|
  {
    if cs != [] {
      var n := |cs| - 1;
      var init := cs[..n];
      assert DistinctNames(t.nodes, init);
      PreorderAllNoDup(t, d, init);
      PreorderNoDup(t, cs[n]);
      PreorderAllElems(t, init, t.rank[d]);
      PreorderElems(t, cs[n]);
      forall x | x in PreorderAll(t, init, t.rank[d]) ensures x !in Preorder(t, cs[n]) {
        ReachAllMember(t, init, t.rank[d], x);
        var j :| 0 <= j < |init| && x in Reach(t, init[j]);
        assert t.nodes[cs[j]].name != t.nodes[cs[n]].name;
        ReachDisjoint(t, d, init[j], cs[n], x);
      }
      NoDupConcat(PreorderAll(t, init, t.rank[d]), Preorder(t, cs[n]));
    }
  }

  // ---------------------------------------------------------------------
  // recurse_filesystem

  /** What `recurse_filesystem` adds for one directory: its size when within `m`, or any size when `m` is 0. */
  ghost function Counted(t: Tree, id: NodeId, m: int): nat
    requires Ranked(t) && id in t.nodes
  {
    var s := TrueSize(t, id);
    if s <= m || m == 0 then s else 0
  }

  ghost function SumCounted(t: Tree, ds: seq<NodeId>, m: int): nat
    requires Ranked(t) && forall x | x in ds :: x in t.nodes
  {
    if ds == [] then 0 else SumCounted(t, ds[..|ds| - 1], m) + Counted(t, ds[|ds| - 1], m)
  }

  lemma {:induction false} SumCountedConcat(t: Tree, a: seq<NodeId>, b: seq<NodeId>, m: int)
    requires Ranked(t) && (forall x | x in a :: x in t.nodes) && (forall x | x in b :: x in t.nodes)
    ensures SumCounted(t, a + b, m) == SumCounted(t, a, m) + SumCounted(t, b, m)
    decreases |b|
  {
    if b != [] {
      var n := |b| - 1;
      assert (a + b)[..|a + b| - 1] == a + b[..n];
      SumCountedConcat(t, a, b[..n], m);
    } else {
      assert a + b == a;
    }
  }

  /** One child more: a directory child adds its own preorder, a file nothing. */
  /** What the loop of `recurse_filesystem` over `d` has added after its first `i` children. */
  ghost function Partial(t: Tree, d: NodeId, i: nat, m: int): int
    requires Ranked(t) && IsDir(t.nodes, d) && i <= |Children(t.nodes, d)|
  {
    assert ChildrenRanked(t, d);
    SumCounted(t, PreorderAll(t, Children(t.nodes, d)[..i], t.rank[d]), m)
  }

  /** One child more: a directory child adds its own preorder, a file nothing. */
  lemma RecurseStep(t: Tree, d: NodeId, i: nat, m: int, sub: int)
    requires Ranked(t) && IsDir(t.nodes, d) && i < |Children(t.nodes, d)|
    requires sub == if IsDir(t.nodes, Children(t.nodes, d)[i]) then SumCounted(t, Preorder(t, Children(t.nodes, d)[i]), m) else 0
    ensures Partial(t, d, i, m) + sub == Partial(t, d, i + 1, m)
  {
    var cs := Children(t.nodes, d);
    assert ChildrenRanked(t, d);
    assert cs[..i + 1][..i] == cs[..i];
    SumCountedConcat(t, PreorderAll(t, cs[..i], t.rank[d]), Preorder(t, cs[i]), m);
  }

  /** A directory counts itself, then the preorders of its children. */
  lemma RecurseWhole(t: Tree, d: NodeId, m: int)
    requires Ranked(t) && IsDir(t.nodes, d)
    ensures SumCounted(t, Preorder(t, d), m) == Counted(t, d, m) + Partial(t, d, |Children(t.nodes, d)|, m)
    ensures Partial(t, d, 0, m) == 0
  {
    var cs := Children(t.nodes, d);
    assert ChildrenRanked(t, d);
    SumCountedConcat(t, [d], PreorderAll(t, cs, t.rank[d]), m);
    assert [d][..0] == [];
    assert cs[..|cs|] == cs;
  }

  /**
    `recurse_filesystem(d, m)`: the sum of `Counted` over `d` and every
    directory below it; files add nothing of their own.
   */
  method RecurseFilesystem(fs: FileSystem, d: NodeId, m: int) returns (s: nat)
    requires fs.Valid() && IsDir(fs.nodes, d)
    modifies fs`cache
    ensures fs.Valid() && fs.Tr() == old(fs.Tr())
    ensures s == SumCounted(fs.Tr(), Preorder(fs.Tr(), d), m)
    decreases fs.rank[d], 1
  {
    var size := fs.Size(d);
    s := if size <= m || m == 0 then size else 0;
    var rest := RecurseChildren(fs, d, m);
    RecurseWhole(fs.Tr(), d, m);
    s := s + rest;
  }

  /** The loop of `recurse_filesystem` over the children of `d`: what the directory children add. */
  method RecurseChildren(fs: FileSystem, d: NodeId, m: int) returns (s: nat)
    requires fs.Valid() && IsDir(fs.nodes, d)
    modifies fs`cache
    ensures fs.Valid() && fs.Tr() == old(fs.Tr())
    ensures s == Partial(fs.Tr(), d, |Children(fs.nodes, d)|, m)
    decreases fs.rank[d], 0
  {
    ghost var t := fs.Tr();
    var cs := Children(fs.nodes, d);
    RecurseWhole(t, d, m);
    s := 0;
    var i := 0;
    while i < |cs|
      invariant 0 <= i <= |cs| && fs.Valid() && fs.Tr() == t
      invariant s == Partial(t, d, i, m)
    {
      var c := cs[i];
      ChildOf(t, d, c);
      if fs.nodes[c].kind.Dir? {
        var sub := RecurseFilesystem(fs, c, m);
        RecurseStep(t, d, i, m, sub);
        s := s + sub;
      } else {
        RecurseStep(t, d, i, m, 0);
      }
      i := i + 1;
    }
  }

  /** The sum counts every directory below `d` once and nothing else. */
  lemma RecurseCountsEachOnce(t: Tree, d: NodeId)
    requires Ranked(t) && Linked(t.nodes) && SiblingsDistinct(t.nodes) && IsDir(t.nodes, d)
    ensures NoDup(Preorder(t, d))
    ensures forall x :: x in Preorder(t, d) <==> x in ReachDirs(t, d)
  {
    PreorderNoDup(t, d);
    PreorderElems(t, d);
  }

  // ---------------------------------------------------------------------
  // find_smallest

  /** No directory of `s` has a size at least `k` yet below `v`. */
  ghost predicate Bound(t: Tree, s: set<NodeId>, k: int, v: int)
    requires Ranked(t)
  {
    forall e | e in s && e in t.nodes && k <= TrueSize(t, e) :: v <= TrueSize(t, e)
  }

  /** `v` is the least size at least `k` among the directories at and below `d`. */
  ghost predicate IsSmallest(t: Tree, d: NodeId, k: int, v: nat)
    requires Ranked(t) && d in t.nodes
  {
    && k <= v
    && (exists e | e in ReachDirs(t, d) :: TrueSize(t, e) == v)
    && Bound(t, ReachDirs(t, d), k, v)
  }

  lemma BoundUnion(t: Tree, a: set<NodeId>, b: set<NodeId>, k: int, v: int)
    requires Ranked(t) && Bound(t, a, k, v) && Bound(t, b, k, v)
    ensures Bound(t, a + b, k, v)
  {
  }

  lemma BoundLower(t: Tree, s: set<NodeId>, k: int, v: int, w: int)
    requires Ranked(t) && Bound(t, s, k, v) && w <= v
    ensures Bound(t, s, k, w)
  {
  }

  /** The directories below the first `i` children of `d`: what the loop of `find_smallest` has searched. */
  ghost function Searched(t: Tree, d: NodeId, i: nat): set<NodeId>
    requires Ranked(t) && IsDir(t.nodes, d) && i <= |Children(t.nodes, d)|
  {
    assert ChildrenRanked(t, d);
    DirsIn(t.nodes, ReachAll(t, Children(t.nodes, d)[..i], t.rank[d]))
  }

  /** One child more: its directories join those already searched, all within `d`. */
  lemma FindStep(t: Tree, d: NodeId, i: nat)
    requires Ranked(t) && IsDir(t.nodes, d) && i < |Children(t.nodes, d)|
    ensures var c := Children(t.nodes, d)[i];
      && c in t.nodes && t.rank[c] < t.rank[d]
      && Searched(t, d, i + 1) == Searched(t, d, i) + ReachDirs(t, c)
      && ReachDirs(t, c) <= ReachDirs(t, d)
      && (!IsDir(t.nodes, c) ==> ReachDirs(t, c) == {})
  {
    assert ChildrenRanked(t, d);
    var cs := Children(t.nodes, d);
    ChildOf(t, d, cs[i]);
    SnocChildren(t, cs, i, t.rank[d]);
    DirsInUnion(t.nodes, ReachAll(t, cs[..i], t.rank[d]), Reach(t, cs[i]));
    ReachChild(t, d, cs[i]);
    if !IsDir(t.nodes, cs[i]) {
      assert Reach(t, cs[i]) == {cs[i]};
    }
  }

  /** Before the loop nothing is searched; after it, the directories below `d` apart from `d`. */
  lemma SearchedEnds(t: Tree, d: NodeId)
    requires Ranked(t) && IsDir(t.nodes, d)
    ensures Searched(t, d, 0) == {}
    ensures ReachDirs(t, d) == {d} + Searched(t, d, |Children(t.nodes, d)|)
  {
    var cs := Children(t.nodes, d);
    assert ChildrenRanked(t, d);
    assert cs[..|cs|] == cs;
    assert cs[..0] == [];
    DirsInUnion(t.nodes, {d}, ReachAll(t, cs, t.rank[d]));
  }

  /** Below a directory smaller than `k` nothing reaches `k`, so any bound holds there. */
  lemma BelowThreshold(t: Tree, c: NodeId, k: int, v: int)
    requires Ranked(t) && c in t.nodes && TrueSize(t, c) < k
    ensures Bound(t, ReachDirs(t, c), k, v)
  {
    forall e | e in ReachDirs(t, c) ensures TrueSize(t, e) < k {
      ReachSizeBound(t, c, e);
    }
  }

  /**
    `find_smallest(d, k)`: nothing when `d` is smaller than `k`, otherwise
    the smallest directory size at least `k` at or below `d`. A child
    smaller than `k` is skipped, which loses nothing because no directory
    below it is larger than it.
   */
  method FindSmallest(fs: FileSystem, d: NodeId, k: int) returns (r: Option<nat>)
    requires fs.Valid() && IsDir(fs.nodes, d)
    modifies fs`cache
    ensures fs.Valid() && fs.Tr() == old(fs.Tr())
    ensures r.None? <==> TrueSize(fs.Tr(), d) < k
    ensures r.Some? ==> IsSmallest(fs.Tr(), d, k, r.value)
    decreases fs.rank[d], 2
  {
    var size := fs.Size(d);
    if size < k {
      return None;
    }
    var smallest, _ := SearchChildren(fs, d, k, size);
    return Some(smallest);
  }

  /**
    The loop of `find_smallest` over the children of `d`, starting from the
    size of `d` itself: the smallest size at least `k` among `d` and the
    directories below it.
   */
  method SearchChildren(fs: FileSystem, d: NodeId, k: int, size: nat) returns (smallest: nat, ghost holder: NodeId)
    requires fs.Valid() && IsDir(fs.nodes, d) && size == TrueSize(fs.Tr(), d) && k <= size
    modifies fs`cache
    ensures fs.Valid() && fs.Tr() == old(fs.Tr())
    ensures IsSmallest(fs.Tr(), d, k, smallest)
    decreases fs.rank[d], 1
  {
    ghost var t := fs.Tr();
    smallest, holder := size, d;
    var cs := Children(fs.nodes, d);
    SearchedEnds(t, d);
    var i := 0;
    while i < |cs|
      invariant 0 <= i <= |cs| && fs.Valid() && fs.Tr() == t
      invariant k <= smallest <= TrueSize(t, d)
      invariant holder in ReachDirs(t, d) && TrueSize(t, holder) == smallest
      invariant Bound(t, Searched(t, d, i), k, smallest)
    {
      smallest, holder := SearchChild(fs, d, i, k, smallest, holder);
      i := i + 1;
    }
    assert Bound(t, {d}, k, smallest);
    BoundUnion(t, {d}, Searched(t, d, i), k, smallest);
  }

  /**
    One round of the loop of `find_smallest` over `d`: the `i`-th child is
    searched when it is a directory of size at least `k`, and a smaller
    result replaces the best so far.
   */
  method SearchChild(fs: FileSystem, d: NodeId, i: nat, k: int, smallest: nat, ghost holder: NodeId)
    returns (best: nat, ghost at: NodeId)
    requires fs.Valid() && IsDir(fs.nodes, d) && i < |Children(fs.nodes, d)|
    requires k <= smallest <= TrueSize(fs.Tr(), d)
    requires holder in ReachDirs(fs.Tr(), d) && TrueSize(fs.Tr(), holder) == smallest
    requires Bound(fs.Tr(), Searched(fs.Tr(), d, i), k, smallest)
    modifies fs`cache
    ensures fs.Valid() && fs.Tr() == old(fs.Tr())
    ensures k <= best <= smallest
    ensures at in ReachDirs(fs.Tr(), d) && TrueSize(fs.Tr(), at) == best
    ensures Bound(fs.Tr(), Searched(fs.Tr(), d, i + 1), k, best)
    decreases fs.rank[d], 0
  {
    ghost var t := fs.Tr();
    var c := Children(fs.nodes, d)[i];
    FindStep(t, d, i);
    ghost var done := Searched(t, d, i);
    best, at := smallest, holder;
    if fs.nodes[c].kind.Dir? {
      var csize := fs.Size(c);
      if csize >= k {
        var sub := FindSmallest(fs, c, k);
        if sub.Some? && sub.value < smallest {
          BoundLower(t, done, k, smallest, sub.value);
          best := sub.value;
          at :| at in ReachDirs(t, c) && TrueSize(t, at) == best;
        } else {
          BoundLower(t, ReachDirs(t, c), k, sub.value, smallest);
        }
      } else {
        BelowThreshold(t, c, k, smallest);
      }
    }
    BoundUnion(t, done, ReachDirs(t, c), k, best);
  }
}
