/**
  The virtual filesystem of day7.py as values: every file and directory lives
  in an arena `map<NodeId, Node>`; a directory holds the ordered ids of its
  children and every node holds the id of its parent. The functions here are
  the specification the imperative model in vfs_tree.dfy is proved against:
  the true recursive size of a node, the nodes below a node, and the chain of
  nodes above it.

  Termination of the two recursions (down through child lists, up through
  parent pointers) rests on a ghost ranking: a child ranks strictly below its
  directory and a node strictly below its parent, and every rank is below a
  common cap.
 */
module VfsSpec {

  import opened Common

  type NodeId = nat

  datatype Kind =
    | File(size: nat)
    | Dir(children: seq<NodeId>, isRoot: bool)

  datatype Node = Node(name: string, parent: Option<NodeId>, kind: Kind)

  type Nodes = map<NodeId, Node>

  /** The arena together with the ghost ranking that orders it. */
  datatype Tree = Tree(nodes: Nodes, rank: map<NodeId, nat>, cap: nat)

  predicate IsDir(nodes: Nodes, id: NodeId) {
    id in nodes && nodes[id].kind.Dir?
  }

  function Children(nodes: Nodes, d: NodeId): seq<NodeId>
    requires IsDir(nodes, d)
  {
    nodes[d].kind.children
  }

  /** Every child of a directory points back at that directory. */
  ghost predicate Linked(nodes: Nodes) {
    forall d: NodeId, c: NodeId | IsDir(nodes, d) && c in Children(nodes, d) :: c in nodes && nodes[c].parent == Some(d)
  }

  ghost predicate ParentRanked(t: Tree, id: NodeId)
    requires id in t.nodes && id in t.rank
  {
    match t.nodes[id].parent
    case None => true
    case Some(p) => IsDir(t.nodes, p) && p in t.rank && t.rank[id] < t.rank[p]
  }

  ghost predicate ChildrenRanked(t: Tree, d: NodeId)
    requires IsDir(t.nodes, d) && d in t.rank
  {
    forall c: NodeId | c in Children(t.nodes, d) :: c in t.nodes && c in t.rank && t.rank[c] < t.rank[d]
  }

  /** The ranking orders the arena: children below, parents above. */
  ghost predicate Ranked(t: Tree) {
    && (forall id: NodeId | id in t.nodes :: id in t.rank && t.rank[id] < t.cap)
    && (forall id: NodeId {:trigger ParentRanked(t, id)} | id in t.nodes :: ParentRanked(t, id))
    && (forall d: NodeId {:trigger ChildrenRanked(t, d)} | IsDir(t.nodes, d) :: ChildrenRanked(t, d))
  }

  lemma ChildOf(t: Tree, d: NodeId, c: NodeId)
    requires Ranked(t) && IsDir(t.nodes, d) && c in Children(t.nodes, d)
    ensures c in t.nodes && t.rank[c] < t.rank[d]
  {
    assert ChildrenRanked(t, d);
  }

  lemma ParentOf(t: Tree, id: NodeId)
    requires Ranked(t) && id in t.nodes && t.nodes[id].parent.Some?
    ensures IsDir(t.nodes, t.nodes[id].parent.value)
    ensures t.rank[id] < t.rank[t.nodes[id].parent.value]
  {
    assert ParentRanked(t, id);
  }

  // ---------------------------------------------------------------------
  // Size: files by their own size, directories by the sum over their children

  ghost function TrueSize(t: Tree, id: NodeId): nat
    requires Ranked(t) && id in t.nodes
    decreases t.rank[id], 1
  {
    match t.nodes[id].kind
    case File(s) => s
    case Dir(cs, _) =>
      assert ChildrenRanked(t, id);
      ChildrenSize(t, cs, t.rank[id])
  }

  /** The sum of the sizes of the nodes `cs`, each ranked below `bound`. */
  ghost function ChildrenSize(t: Tree, cs: seq<NodeId>, bound: nat): nat
    requires Ranked(t)
    requires forall c: NodeId | c in cs :: c in t.nodes && t.rank[c] < bound
    decreases bound, 0, |cs|
  {
    if cs == [] then 0
    else ChildrenSize(t, cs[..|cs| - 1], bound) + TrueSize(t, cs[|cs| - 1])
  }

  // ---------------------------------------------------------------------
  // The nodes below a node (itself included), following child lists

  ghost function Reach(t: Tree, id: NodeId): (r: set<NodeId>)
    requires Ranked(t) && id in t.nodes
    ensures id in r && r <= t.nodes.Keys
    decreases t.rank[id], 1
  {
    match t.nodes[id].kind
    case File(_) => {id}
    case Dir(cs, _) =>
      assert ChildrenRanked(t, id);
      {id} + ReachAll(t, cs, t.rank[id])
  }

  ghost function ReachAll(t: Tree, cs: seq<NodeId>, bound: nat): (r: set<NodeId>)
    requires Ranked(t)
    requires forall c: NodeId | c in cs :: c in t.nodes && t.rank[c] < bound
    ensures r <= t.nodes.Keys
    decreases bound, 0, |cs|
  {
    if cs == [] then {}
    else ReachAll(t, cs[..|cs| - 1], bound) + Reach(t, cs[|cs| - 1])
  }

  /** The directories among the nodes below `id`. */
  ghost function ReachDirs(t: Tree, id: NodeId): set<NodeId>
    requires Ranked(t) && id in t.nodes
  {
    DirsIn(t.nodes, Reach(t, id))
  }

  ghost function DirsIn(nodes: Nodes, s: set<NodeId>): set<NodeId> {
    set e | e in s && IsDir(nodes, e)
  }

  // ---------------------------------------------------------------------
  // The nodes above a node (itself included), following parent pointers

  ghost function Ancestors(t: Tree, id: NodeId): (r: set<NodeId>)
    requires Ranked(t) && id in t.nodes
    ensures id in r && r <= t.nodes.Keys
    decreases t.cap - t.rank[id]
  {
    match t.nodes[id].parent
    case None => {id}
    case Some(p) =>
      ParentOf(t, id);
      {id} + Ancestors(t, p)
  }

  // ---------------------------------------------------------------------
  // The lazily computed size cache: a directory id is a key exactly while
  // its `_size` is set.

  ghost predicate CacheSound(t: Tree, cache: map<NodeId, nat>)
    requires Ranked(t)
  {
    forall d: NodeId | d in cache :: IsDir(t.nodes, d) && cache[d] == TrueSize(t, d)
  }

  /** A set directory's subdirectories are set as well. */
  ghost predicate CacheClosed(nodes: Nodes, cache: map<NodeId, nat>) {
    forall d: NodeId, c: NodeId | d in cache && IsDir(nodes, d) && c in Children(nodes, d) && IsDir(nodes, c) :: c in cache
  }

  /** The keys that invalidating directory `d` removes. */
  ghost function Invalidated(t: Tree, cache: map<NodeId, nat>, d: NodeId, force: bool): set<NodeId>
    requires Ranked(t) && d in t.nodes
  {
    if d in cache || force then Ancestors(t, d) else {}
  }

  // ---------------------------------------------------------------------
  // Facts about the nodes below a node

  lemma {:induction false} ReachAllMember(t: Tree, cs: seq<NodeId>, bound: nat, e: NodeId)
    requires Ranked(t)
    requires forall c: NodeId | c in cs :: c in t.nodes && t.rank[c] < bound
    ensures e in ReachAll(t, cs, bound) <==> exists i :: 0 <= i < |cs| && e in Reach(t, cs[i])
    decreases |cs|
  {
    if cs != [] {
      var pre := cs[..|cs| - 1];
      ReachAllMember(t, pre, bound, e);
      if e in ReachAll(t, pre, bound) {
        var i :| 0 <= i < |pre| && e in Reach(t, pre[i]);
        assert cs[i] == pre[i];
      }
      if e in Reach(t, cs[|cs| - 1]) {
      }
      if i :| 0 <= i < |cs| && e in Reach(t, cs[i]) {
        if i < |cs| - 1 {
          assert pre[i] == cs[i];
        }
      }
    }
  }

  lemma ReachChild(t: Tree, d: NodeId, c: NodeId)
    requires Ranked(t) && IsDir(t.nodes, d) && c in Children(t.nodes, d)
    ensures c in t.nodes && Reach(t, c) <= Reach(t, d)
  {
    ChildOf(t, d, c);
    assert ChildrenRanked(t, d);
    var cs := Children(t.nodes, d);
    var i :| 0 <= i < |cs| && cs[i] == c;
    forall e | e in Reach(t, c) ensures e in Reach(t, d) {
      ReachAllMember(t, cs, t.rank[d], e);
    }
  }

  /** A node other than `d` below `d` lies below one of `d`'s children. */
  lemma ReachStep(t: Tree, d: NodeId, e: NodeId) returns (c: NodeId)
    requires Ranked(t) && d in t.nodes && e in Reach(t, d) && e != d
    ensures IsDir(t.nodes, d) && c in Children(t.nodes, d) && c in t.nodes && e in Reach(t, c)
    ensures t.rank[c] < t.rank[d]
  {
    assert t.nodes[d].kind.Dir?;
    assert ChildrenRanked(t, d);
    var cs := Children(t.nodes, d);
    ReachAllMember(t, cs, t.rank[d], e);
    var i :| 0 <= i < |cs| && e in Reach(t, cs[i]);
    c := cs[i];
  }

  lemma {:induction false} ReachInNodes(t: Tree, d: NodeId, e: NodeId)
    requires Ranked(t) && d in t.nodes && e in Reach(t, d)
    ensures e in t.nodes && t.rank[e] <= t.rank[d]
    decreases t.rank[d]
  {
    if e != d {
      var c := ReachStep(t, d, e);
      ReachInNodes(t, c, e);
    }
  }

  lemma {:induction false} ReachTransitive(t: Tree, d: NodeId, e: NodeId)
    requires Ranked(t) && d in t.nodes && e in Reach(t, d)
    ensures e in t.nodes && Reach(t, e) <= Reach(t, d)
    decreases t.rank[d]
  {
    ReachInNodes(t, d, e);
    if e != d {
      var c := ReachStep(t, d, e);
      ReachTransitive(t, c, e);
      ReachChild(t, d, c);
    }
  }

  // ---------------------------------------------------------------------
  // Sizes depend only on the kinds of the nodes below

  lemma {:induction false} SizeFrame(t: Tree, u: Tree, id: NodeId)
    requires Ranked(t) && Ranked(u) && id in t.nodes
    requires forall e: NodeId | e in Reach(t, id) :: e in u.nodes && u.nodes[e].kind == t.nodes[e].kind
    ensures id in u.nodes && TrueSize(u, id) == TrueSize(t, id) && Reach(u, id) == Reach(t, id)
    decreases t.rank[id], 1
  {
    assert id in Reach(t, id);
    match t.nodes[id].kind
    case File(_) =>
    case Dir(cs, _) =>
      assert ChildrenRanked(t, id);
      assert ChildrenRanked(u, id);
      ChildrenFrame(t, u, cs, t.rank[id], u.rank[id]);
  }

  lemma {:induction false} ChildrenFrame(t: Tree, u: Tree, cs: seq<NodeId>, b: nat, b': nat)
    requires Ranked(t) && Ranked(u)
    requires forall c: NodeId | c in cs :: c in t.nodes && t.rank[c] < b
    requires forall c: NodeId | c in cs :: c in u.nodes && u.rank[c] < b'
    requires forall e: NodeId | e in ReachAll(t, cs, b) :: e in u.nodes && u.nodes[e].kind == t.nodes[e].kind
    ensures ChildrenSize(u, cs, b') == ChildrenSize(t, cs, b)
    ensures ReachAll(u, cs, b') == ReachAll(t, cs, b)
    decreases b, 0, |cs|
  {
    if cs != [] {
      var pre, last := cs[..|cs| - 1], cs[|cs| - 1];
      ChildrenFrame(t, u, pre, b, b');
      SizeFrame(t, u, last);
    }
  }

  /** Sizes and cache soundness survive changes that leave every kind alone. */
  lemma CacheSoundFrame(t: Tree, u: Tree, cache: map<NodeId, nat>)
    requires Ranked(t) && Ranked(u) && CacheSound(t, cache)
    requires t.nodes.Keys <= u.nodes.Keys
    requires forall e: NodeId | e in t.nodes :: u.nodes[e].kind == t.nodes[e].kind
    ensures CacheSound(u, cache)
  {
    forall d: NodeId | d in cache ensures IsDir(u.nodes, d) && cache[d] == TrueSize(u, d) {
      forall e: NodeId | e in Reach(t, d) ensures e in u.nodes && u.nodes[e].kind == t.nodes[e].kind {
        ReachInNodes(t, d, e);
      }
      SizeFrame(t, u, d);
    }
  }

  lemma {:induction false} ChildrenSizeBound(t: Tree, cs: seq<NodeId>, bound: nat, i: nat)
    requires Ranked(t)
    requires forall c: NodeId | c in cs :: c in t.nodes && t.rank[c] < bound
    requires i < |cs|
    ensures TrueSize(t, cs[i]) <= ChildrenSize(t, cs, bound)
    decreases |cs|
  {
    if i < |cs| - 1 {
      ChildrenSizeBound(t, cs[..|cs| - 1], bound, i);
    }
  }

  /** No node below a directory is larger than the directory. */
  lemma {:induction false} ReachSizeBound(t: Tree, d: NodeId, e: NodeId)
    requires Ranked(t) && d in t.nodes && e in Reach(t, d)
    ensures e in t.nodes && TrueSize(t, e) <= TrueSize(t, d)
    decreases t.rank[d]
  {
    ReachInNodes(t, d, e);
    if e != d {
      var c := ReachStep(t, d, e);
      ReachSizeBound(t, c, e);
      var cs := Children(t.nodes, d);
      assert ChildrenRanked(t, d);
      var i :| 0 <= i < |cs| && cs[i] == c;
      ChildrenSizeBound(t, cs, t.rank[d], i);
    }
  }

  // ---------------------------------------------------------------------
  // Facts about the nodes above a node

  lemma {:induction false} AncestorsInNodes(t: Tree, id: NodeId, a: NodeId)
    requires Ranked(t) && id in t.nodes && a in Ancestors(t, id)
    ensures a in t.nodes && t.rank[id] <= t.rank[a]
    ensures a != id ==> IsDir(t.nodes, a) && t.rank[id] < t.rank[a]
    decreases t.cap - t.rank[id]
  {
    if a != id {
      var p := t.nodes[id].parent.value;
      ParentOf(t, id);
      AncestorsInNodes(t, p, a);
    }
  }

  lemma {:induction false} AncestorsClosed(t: Tree, id: NodeId, a: NodeId)
    requires Ranked(t) && id in t.nodes && a in Ancestors(t, id)
    ensures a in t.nodes && Ancestors(t, a) <= Ancestors(t, id)
    decreases t.cap - t.rank[id]
  {
    AncestorsInNodes(t, id, a);
    if a != id {
      ParentOf(t, id);
      AncestorsClosed(t, t.nodes[id].parent.value, a);
    }
  }

  /** The ancestors of a node form a chain. */
  lemma {:induction false} AncestorsChain(t: Tree, id: NodeId, a: NodeId, b: NodeId)
    requires Ranked(t) && id in t.nodes && a in Ancestors(t, id) && b in Ancestors(t, id)
    ensures a in t.nodes && b in t.nodes
    ensures a in Ancestors(t, b) || b in Ancestors(t, a)
    decreases t.cap - t.rank[id]
  {
    AncestorsInNodes(t, id, a);
    AncestorsInNodes(t, id, b);
    if a != id && b != id {
      ParentOf(t, id);
      AncestorsChain(t, t.nodes[id].parent.value, a, b);
    }
  }

  lemma {:induction false} AncestorsFrame(t: Tree, u: Tree, id: NodeId)
    requires Ranked(t) && Ranked(u) && id in t.nodes
    requires forall a: NodeId | a in Ancestors(t, id) :: a in u.nodes && u.nodes[a].parent == t.nodes[a].parent
    ensures id in u.nodes && Ancestors(u, id) == Ancestors(t, id)
    decreases t.cap - t.rank[id]
  {
    assert id in Ancestors(t, id);
    match t.nodes[id].parent
    case None =>
    case Some(p) =>
      ParentOf(t, id);
      AncestorsClosed(t, id, p);
      AncestorsFrame(t, u, p);
  }

  /** If `e` lies below `n`, then `n` lies on the parent chain of `e`. */
  lemma {:induction false} ReachAncestors(t: Tree, n: NodeId, e: NodeId)
    requires Ranked(t) && Linked(t.nodes) && n in t.nodes && e in Reach(t, n)
    ensures e in t.nodes && n in Ancestors(t, e)
    decreases t.rank[n]
  {
    ReachInNodes(t, n, e);
    if e != n {
      var c := ReachStep(t, n, e);
      ReachAncestors(t, c, e);
      assert t.nodes[c].parent == Some(n);
      AncestorsClosed(t, e, c);
    }
  }

  // ---------------------------------------------------------------------
  // The cache

  /** Below an unset directory no set directory can sit above it. */
  lemma {:induction false} UnsetReach(t: Tree, cache: map<NodeId, nat>, n: NodeId, e: NodeId)
    requires Ranked(t) && CacheClosed(t.nodes, cache)
    requires n in t.nodes && e in Reach(t, n) && IsDir(t.nodes, e) && e !in cache
    ensures n !in cache
    decreases t.rank[n]
  {
    if e != n {
      var c := ReachStep(t, n, e);
      if c != e {
        var c' := ReachStep(t, c, e);
      }
      assert IsDir(t.nodes, c);
      UnsetReach(t, cache, c, e);
    }
  }

  lemma CachedReach(t: Tree, cache: map<NodeId, nat>, d: NodeId)
    requires Ranked(t) && CacheClosed(t.nodes, cache) && d in t.nodes && d in cache
    ensures ReachDirs(t, d) <= cache.Keys
  {
    forall e | e in ReachDirs(t, d) ensures e in cache {
      if e !in cache {
        UnsetReach(t, cache, d, e);
      }
    }
  }

  /**
    The invariant behind `recalculate_size`: after the kind of directory `d`
    changes (a child added or removed), dropping the keys `Invalidated`
    names leaves a cache that is sound and closed for the new arena. When `d`
    was set, every directory whose size depends on `d` is one of its
    ancestors; when `d` was already unset, no set directory sits above it.
   */
  lemma InvalidationRestoresCache(t: Tree, u: Tree, cache: map<NodeId, nat>, d: NodeId, force: bool)
    requires Ranked(t) && Ranked(u) && Linked(t.nodes)
    requires CacheSound(t, cache) && CacheClosed(t.nodes, cache)
    requires IsDir(t.nodes, d) && IsDir(u.nodes, d) && t.nodes.Keys <= u.nodes.Keys
    requires forall e: NodeId | e in t.nodes && e != d :: u.nodes[e].kind == t.nodes[e].kind
    ensures CacheSound(u, cache - Invalidated(t, cache, d, force))
    ensures CacheClosed(u.nodes, cache - Invalidated(t, cache, d, force))
  {
    var gone := Invalidated(t, cache, d, force);
    var kept := cache - gone;
    assert d !in kept by {
      if d in cache { assert d in Ancestors(t, d); }
    }
    forall e: NodeId | e in kept ensures IsDir(u.nodes, e) && kept[e] == TrueSize(u, e) {
      assert d !in Reach(t, e) by {
        if d in Reach(t, e) {
          if d in cache || force {
            ReachAncestors(t, e, d);
          } else {
            UnsetReach(t, cache, e, d);
          }
        }
      }
      forall x: NodeId | x in Reach(t, e) ensures x in u.nodes && u.nodes[x].kind == t.nodes[x].kind {
        ReachInNodes(t, e, x);
      }
      SizeFrame(t, u, e);
    }
    forall e: NodeId, c: NodeId | e in kept && IsDir(u.nodes, e) && c in Children(u.nodes, e) && IsDir(u.nodes, c)
      ensures c in kept
    {
      assert Children(u.nodes, e) == Children(t.nodes, e);
      assert t.nodes[c].parent == Some(e);
      assert c in cache;
      if c in gone {
        AncestorsClosed(t, d, c);
      }
    }
  }

  // ---------------------------------------------------------------------
  // Child lists and the updates `add_child`, `remove_child` and
  // `_set_parent` make to the arena

  /** Some node among `cs` is called `name`. */
  ghost predicate NameTaken(nodes: Nodes, cs: seq<NodeId>, name: string) {
    exists i :: 0 <= i < |cs| && cs[i] in nodes && nodes[cs[i]].name == name
  }

  /** Sibling names are pairwise distinct. */
  ghost predicate DistinctNames(nodes: Nodes, cs: seq<NodeId>) {
    forall i, j | 0 <= i < j < |cs| && cs[i] in nodes && cs[j] in nodes :: nodes[cs[i]].name != nodes[cs[j]].name
  }

  /** The position of the first occurrence of `x`, as `list.remove` finds it. */
  function IndexOf(cs: seq<NodeId>, x: NodeId): (k: nat)
    requires x in cs
    ensures k < |cs| && cs[k] == x && x !in cs[..k]
  {
    if cs[0] == x then 0
    else
      var k := IndexOf(cs[1..], x);
      assert cs[1..][..k] == cs[1..k + 1];
      k + 1
  }

  /** `cs` with its first occurrence of `x` taken out. */
  function RemoveFirst(cs: seq<NodeId>, x: NodeId): (r: seq<NodeId>)
    requires x in cs
    ensures |r| + 1 == |cs|
    ensures multiset(r) == multiset(cs) - multiset{x}
  {
    var k := IndexOf(cs, x);
    assert cs == cs[..k] + [x] + cs[k + 1..];
    cs[..k] + cs[k + 1..]
  }

  function WithChildren(nodes: Nodes, d: NodeId, cs: seq<NodeId>): (r: Nodes)
    requires IsDir(nodes, d)
    ensures r.Keys == nodes.Keys && IsDir(r, d) && Children(r, d) == cs
  {
    nodes[d := nodes[d].(kind := nodes[d].kind.(children := cs))]
  }

  function WithParent(nodes: Nodes, x: NodeId, p: Option<NodeId>): (r: Nodes)
    requires x in nodes
    ensures r.Keys == nodes.Keys && r[x].parent == p
  {
    nodes[x := nodes[x].(parent := p)]
  }

  /**
    The ranking after node `x` is hung below directory `p`: every ancestor of
    `p` is raised above `x`, so the new parent pointer still leads upwards.
   */
  ghost function Rebind(t: Tree, x: NodeId, p: NodeId): Tree
    requires Ranked(t) && x in t.nodes && p in t.nodes
  {
    var k := t.rank[x] + 1;
    var anc := Ancestors(t, p);
    Tree(WithParent(t.nodes, x, Some(p)),
         map id | id in t.rank :: if id in anc then t.rank[id] + k else t.rank[id],
         t.cap + k)
  }

  lemma RebindEdge(t: Tree, x: NodeId, p: NodeId, c: NodeId, a: NodeId)
    requires Ranked(t) && x in t.nodes && IsDir(t.nodes, p) && x !in Ancestors(t, p)
    requires c in t.nodes && c != x && t.nodes[c].parent == Some(a)
    ensures a in t.nodes && Rebind(t, x, p).rank[c] < Rebind(t, x, p).rank[a]
  {
    assert ParentRanked(t, c);
    if c in Ancestors(t, p) {
      AncestorsClosed(t, p, c);
    }
  }

  lemma RebindRanked(t: Tree, x: NodeId, p: NodeId)
    requires Ranked(t) && Linked(t.nodes) && x in t.nodes && IsDir(t.nodes, p)
    requires x !in Ancestors(t, p)
    requires forall d: NodeId | IsDir(t.nodes, d) :: x !in Children(t.nodes, d)
    ensures Ranked(Rebind(t, x, p)) && Linked(Rebind(t, x, p).nodes)
  {
    var u := Rebind(t, x, p);
    forall id: NodeId | id in u.nodes ensures ParentRanked(u, id) {
      if id != x {
        if a :| t.nodes[id].parent == Some(a) {
          RebindEdge(t, x, p, id, a);
          assert ParentRanked(t, id);
        }
      } else {
        AncestorsInNodes(t, p, p);
      }
    }
    forall d: NodeId | IsDir(u.nodes, d) ensures ChildrenRanked(u, d) {
      assert ChildrenRanked(t, d);
      forall c: NodeId | c in Children(u.nodes, d) ensures u.rank[c] < u.rank[d] {
        RebindEdge(t, x, p, c, d);
      }
    }
  }

  // ---------------------------------------------------------------------
  // The ranking survives the single-field updates the operations make

  /** Replacing a child list by one whose nodes rank below `d` keeps the ranking. */
  lemma WithChildrenRanked(t: Tree, d: NodeId, cs: seq<NodeId>)
    requires Ranked(t) && IsDir(t.nodes, d)
    requires forall c: NodeId | c in cs :: c in t.nodes && t.rank[c] < t.rank[d]
    ensures Ranked(Tree(WithChildren(t.nodes, d, cs), t.rank, t.cap))
  {
    var u := Tree(WithChildren(t.nodes, d, cs), t.rank, t.cap);
    forall id: NodeId | id in u.nodes ensures ParentRanked(u, id) {
      assert ParentRanked(t, id);
    }
    forall e: NodeId | IsDir(u.nodes, e) ensures ChildrenRanked(u, e) {
      assert ChildrenRanked(t, e);
    }
  }

  lemma ClearParentRanked(t: Tree, x: NodeId)
    requires Ranked(t) && x in t.nodes
    ensures Ranked(Tree(WithParent(t.nodes, x, None), t.rank, t.cap))
  {
    var u := Tree(WithParent(t.nodes, x, None), t.rank, t.cap);
    forall id: NodeId | id in u.nodes ensures ParentRanked(u, id) {
      assert ParentRanked(t, id);
    }
    forall e: NodeId | IsDir(u.nodes, e) ensures ChildrenRanked(u, e) {
      assert ChildrenRanked(t, e);
    }
  }

  /** A fresh parentless childless node of rank 0 keeps the ranking. */
  lemma FreshRanked(t: Tree, id: NodeId, n: Node)
    requires Ranked(t) && id !in t.nodes && n.parent.None? && (n.kind.Dir? ==> n.kind.children == [])
    ensures Ranked(Tree(t.nodes[id := n], t.rank[id := 0], t.cap + 1))
  {
    var u := Tree(t.nodes[id := n], t.rank[id := 0], t.cap + 1);
    forall e: NodeId | e in u.nodes && e != id ensures ParentRanked(u, e) {
      assert ParentRanked(t, e);
    }
    forall e: NodeId | IsDir(u.nodes, e) && e != id ensures ChildrenRanked(u, e) {
      assert ChildrenRanked(t, e);
    }
  }

  /** One more element at the end of a child list. */
  lemma SnocChildren(t: Tree, cs: seq<NodeId>, i: nat, bound: nat)
    requires Ranked(t) && i < |cs|
    requires forall c: NodeId | c in cs :: c in t.nodes && t.rank[c] < bound
    ensures ChildrenSize(t, cs[..i + 1], bound) == ChildrenSize(t, cs[..i], bound) + TrueSize(t, cs[i])
    ensures ReachAll(t, cs[..i + 1], bound) == ReachAll(t, cs[..i], bound) + Reach(t, cs[i])
  {
    assert cs[..i + 1][..i] == cs[..i];
  }

  lemma DirSize(t: Tree, d: NodeId)
    requires Ranked(t) && IsDir(t.nodes, d)
    ensures ChildrenRanked(t, d)
    ensures TrueSize(t, d) == ChildrenSize(t, Children(t.nodes, d), t.rank[d])
    ensures ReachDirs(t, d) == {d} + DirsIn(t.nodes, ReachAll(t, Children(t.nodes, d), t.rank[d]))
  {
    assert ChildrenRanked(t, d);
  }
}
