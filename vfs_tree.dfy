/**
  The mutable filesystem objects of day7.py. Every `VFile` and `VDirectory`
  is an entry of one arena owned by a `FileSystem` object; an object
  reference becomes a `NodeId`. The fields the source updates in place are
  the arena `nodes` (`_parent`, `_children`) and the size cache `cache`
  (a directory is a key exactly while its `_size` is not None).

  `Valid()` is the invariant every operation keeps. Its heart is that a set
  cache entry always equals the true recursive size (`CacheSound`), and
  that a set directory's subdirectories are set too (`CacheClosed`).
 */
module VfsTree {

  import opened Common
  import opened VfsSpec

  datatype FsError =
    | InvalidName    // VFSError: a name holding a carriage return or a newline
    | NegativeSize   // ValueError: a file size below zero
    | DuplicateName  // VFSError: add_child of a name a sibling already has
    | NotAChild      // ValueError: remove_child of a node not in the child list

  predicate ValidName(name: string) {
    '\r' !in name && '\n' !in name
  }

  /** No directory lists `x` as a child. */
  ghost predicate Unlisted(nodes: Nodes, x: NodeId) {
    forall d: NodeId | IsDir(nodes, d) :: x !in Children(nodes, d)
  }

  /** `x` can be detached: it has no parent, or its parent lists it. */
  ghost predicate Detachable(nodes: Nodes, x: NodeId)
    requires x in nodes
  {
    match nodes[x].parent
    case None => true
    case Some(q) => IsDir(nodes, q) && x in Children(nodes, q)
  }

  /** The arena once `x` is taken out of its parent's child list. */
  ghost function Detached(nodes: Nodes, x: NodeId): Nodes
    requires x in nodes && Detachable(nodes, x)
  {
    match nodes[x].parent
    case None => nodes
    case Some(q) => WithChildren(nodes, q, RemoveFirst(Children(nodes, q), x))
  }

  /** The cache once `x` is taken out of its parent's child list. */
  ghost function DetachedCache(t: Tree, cache: map<NodeId, nat>, x: NodeId): map<NodeId, nat>
    requires Ranked(t) && x in t.nodes && Detachable(t.nodes, x)
  {
    match t.nodes[x].parent
    case None => cache
    case Some(q) => cache - Invalidated(t, cache, q, false)
  }

  lemma ListedOnce(nodes: Nodes, cs: seq<NodeId>, x: NodeId)
    requires x in cs && x in nodes && DistinctNames(nodes, cs)
    ensures x !in RemoveFirst(cs, x)
  {
    var k := IndexOf(cs, x);
    assert x !in cs[k + 1..];
  }

  lemma RemoveKeepsDistinct(nodes: Nodes, cs: seq<NodeId>, x: NodeId)
    requires x in cs && DistinctNames(nodes, cs)
    ensures DistinctNames(nodes, RemoveFirst(cs, x))
    ensures forall c: NodeId | c in RemoveFirst(cs, x) :: c in cs
  {
    var k := IndexOf(cs, x);
    var r := RemoveFirst(cs, x);
    assert forall i | 0 <= i < |r| :: r[i] == if i < k then cs[i] else cs[i + 1];
  }

  lemma AppendKeepsDistinct(nodes: Nodes, cs: seq<NodeId>, x: NodeId)
    requires DistinctNames(nodes, cs) && x in nodes && !NameTaken(nodes, cs, nodes[x].name)
    ensures DistinctNames(nodes, cs + [x])
  {
    forall i, j | 0 <= i < j < |cs + [x]| && (cs + [x])[i] in nodes && (cs + [x])[j] in nodes
      ensures nodes[(cs + [x])[i]].name != nodes[(cs + [x])[j]].name
    {
      if j == |cs| {
        assert (cs + [x])[i] == cs[i];
      }
    }
  }

  ghost predicate NamesUsable(nodes: Nodes) {
    forall id: NodeId | id in nodes :: ValidName(nodes[id].name)
  }

  ghost predicate RootFlags(nodes: Nodes) {
    forall d: NodeId | IsDir(nodes, d) :: nodes[d].kind.isRoot <==> nodes[d].name == "/"
  }

  ghost predicate SiblingsDistinct(nodes: Nodes) {
    forall d: NodeId | IsDir(nodes, d) :: DistinctNames(nodes, Children(nodes, d))
  }

  ghost predicate IdsBelow(nodes: Nodes, next: NodeId) {
    forall id: NodeId | id in nodes :: id < next
  }

  /** The invariant of the filesystem state. */
  ghost predicate Good(t: Tree, cache: map<NodeId, nat>, next: NodeId) {
    && Ranked(t)
    && Linked(t.nodes)
    && IdsBelow(t.nodes, next)
    && NamesUsable(t.nodes)
    && RootFlags(t.nodes)
    && SiblingsDistinct(t.nodes)
    && CacheSound(t, cache)
    && CacheClosed(t.nodes, cache)
  }

  lemma NameTakenFrame(a: Nodes, b: Nodes, cs: seq<NodeId>, name: string)
    requires forall c: NodeId | c in cs :: (c in a <==> c in b) && (c in a ==> a[c].name == b[c].name)
    ensures NameTaken(a, cs, name) == NameTaken(b, cs, name)
  {
    if NameTaken(a, cs, name) {
      var i :| 0 <= i < |cs| && cs[i] in a && a[cs[i]].name == name;
      assert cs[i] in b && b[cs[i]].name == name;
    }
    if NameTaken(b, cs, name) {
      var i :| 0 <= i < |cs| && cs[i] in b && b[cs[i]].name == name;
      assert cs[i] in a && a[cs[i]].name == name;
    }
  }

  /** A new child list for `d` keeps the structural invariants it can. */
  lemma WithChildrenFrame(nodes: Nodes, next: NodeId, d: NodeId, cs: seq<NodeId>)
    requires IsDir(nodes, d) && Linked(nodes) && IdsBelow(nodes, next) && NamesUsable(nodes)
    requires RootFlags(nodes) && SiblingsDistinct(nodes)
    requires forall c: NodeId | c in cs :: c in nodes && nodes[c].parent == Some(d)
    requires DistinctNames(nodes, cs)
    ensures var u := WithChildren(nodes, d, cs);
      Linked(u) && IdsBelow(u, next) && NamesUsable(u) && RootFlags(u) && SiblingsDistinct(u)
  {
    var u := WithChildren(nodes, d, cs);
    forall e: NodeId, c: NodeId | IsDir(u, e) && c in Children(u, e) ensures c in u && u[c].parent == Some(e) {
      if e != d {
        assert Children(u, e) == Children(nodes, e);
      }
    }
    forall e: NodeId | IsDir(u, e) ensures DistinctNames(u, Children(u, e)) {
      var ce := Children(u, e);
      forall i, j | 0 <= i < j < |ce| && ce[i] in u && ce[j] in u ensures u[ce[i]].name != u[ce[j]].name {
        assert u[ce[i]].name == nodes[ce[i]].name && u[ce[j]].name == nodes[ce[j]].name;
        if e != d {
          assert DistinctNames(nodes, Children(nodes, e));
        }
      }
    }
  }

  /** A new parent pointer for an unlisted node keeps the structural invariants. */
  lemma WithParentFrame(nodes: Nodes, next: NodeId, x: NodeId, p: Option<NodeId>)
    requires x in nodes && Unlisted(nodes, x) && Linked(nodes) && IdsBelow(nodes, next)
    requires NamesUsable(nodes) && RootFlags(nodes) && SiblingsDistinct(nodes)
    ensures var u := WithParent(nodes, x, p);
      Linked(u) && IdsBelow(u, next) && NamesUsable(u) && RootFlags(u) && SiblingsDistinct(u)
  {
    var u := WithParent(nodes, x, p);
    forall e: NodeId, c: NodeId | IsDir(u, e) && c in Children(u, e) ensures c in u && u[c].parent == Some(e) {
      assert Children(u, e) == Children(nodes, e);
    }
    forall e: NodeId | IsDir(u, e) ensures DistinctNames(u, Children(u, e)) {
      assert DistinctNames(nodes, Children(nodes, e));
    }
  }

  /** A fresh parentless node keeps the structural invariants. */
  lemma FreshFrame(nodes: Nodes, next: NodeId, n: Node)
    requires Linked(nodes) && IdsBelow(nodes, next) && NamesUsable(nodes) && RootFlags(nodes) && SiblingsDistinct(nodes)
    requires ValidName(n.name) && (n.kind.Dir? ==> n.kind.children == [] && (n.kind.isRoot <==> n.name == "/"))
    ensures var u := nodes[next := n];
      Linked(u) && IdsBelow(u, next + 1) && NamesUsable(u) && RootFlags(u) && SiblingsDistinct(u)
  {
    var u := nodes[next := n];
    forall e: NodeId, c: NodeId | IsDir(u, e) && c in Children(u, e) ensures c in u && u[c].parent == Some(e) {
      assert e != next && Children(u, e) == Children(nodes, e);
    }
    forall e: NodeId | IsDir(u, e) ensures DistinctNames(u, Children(u, e)) {
      if e != next {
        assert DistinctNames(nodes, Children(nodes, e));
        assert forall c: NodeId | c in Children(nodes, e) :: c in nodes && c != next;
      }
    }
  }

  /** Appending `x` to `d`'s list, with the invalidation `add_child` makes. */
  lemma GoodAdd(t: Tree, cache: map<NodeId, nat>, next: NodeId, d: NodeId, x: NodeId)
    requires Good(t, cache, next) && IsDir(t.nodes, d) && x in t.nodes && t.nodes[x].parent == Some(d)
    requires !NameTaken(t.nodes, Children(t.nodes, d), t.nodes[x].name)
    ensures var u := Tree(WithChildren(t.nodes, d, Children(t.nodes, d) + [x]), t.rank, t.cap);
      && Ranked(u)
      && Good(u, cache - Invalidated(t, cache, d, false), next)
      && Invalidated(u, cache, d, false) == Invalidated(t, cache, d, false)
  {
    var cs := Children(t.nodes, d);
    var u := Tree(WithChildren(t.nodes, d, cs + [x]), t.rank, t.cap);
    ParentOf(t, x);
    assert ChildrenRanked(t, d);
    WithChildrenRanked(t, d, cs + [x]);
    AppendKeepsDistinct(t.nodes, cs, x);
    WithChildrenFrame(t.nodes, next, d, cs + [x]);
    InvalidationRestoresCache(t, u, cache, d, false);
    AncestorsFrame(t, u, d);
  }

  /** Taking `x` out of `d`'s list, with the invalidation `remove_child` makes. */
  lemma GoodRemove(t: Tree, cache: map<NodeId, nat>, next: NodeId, d: NodeId, x: NodeId)
    requires Good(t, cache, next) && IsDir(t.nodes, d) && x in Children(t.nodes, d)
    ensures var u := Tree(WithChildren(t.nodes, d, RemoveFirst(Children(t.nodes, d), x)), t.rank, t.cap);
      && Ranked(u)
      && Good(u, cache - Invalidated(t, cache, d, false), next)
      && Invalidated(u, cache, d, false) == Invalidated(t, cache, d, false)
  {
    var cs := Children(t.nodes, d);
    var u := Tree(WithChildren(t.nodes, d, RemoveFirst(cs, x)), t.rank, t.cap);
    assert ChildrenRanked(t, d);
    RemoveKeepsDistinct(t.nodes, cs, x);
    WithChildrenRanked(t, d, RemoveFirst(cs, x));
    WithChildrenFrame(t.nodes, next, d, RemoveFirst(cs, x));
    InvalidationRestoresCache(t, u, cache, d, false);
    AncestorsFrame(t, u, d);
  }

  /** After `remove_child`, no list holds `x` any more. */
  lemma RemoveUnlists(t: Tree, cache: map<NodeId, nat>, next: NodeId, x: NodeId)
    requires Good(t, cache, next) && x in t.nodes && t.nodes[x].parent.Some?
    requires IsDir(t.nodes, t.nodes[x].parent.value) && x in Children(t.nodes, t.nodes[x].parent.value)
    ensures Unlisted(WithChildren(t.nodes, t.nodes[x].parent.value,
                                  RemoveFirst(Children(t.nodes, t.nodes[x].parent.value), x)), x)
  {
    var q := t.nodes[x].parent.value;
    var u := WithChildren(t.nodes, q, RemoveFirst(Children(t.nodes, q), x));
    ListedOnce(t.nodes, Children(t.nodes, q), x);
    forall e: NodeId | IsDir(u, e) ensures x !in Children(u, e) {
      if e != q {
        assert Children(u, e) == Children(t.nodes, e);
      }
    }
  }

  lemma OrphanUnlisted(t: Tree, cache: map<NodeId, nat>, next: NodeId, x: NodeId)
    requires Good(t, cache, next) && x in t.nodes && t.nodes[x].parent.None?
    ensures Unlisted(t.nodes, x)
  {
  }

  lemma GoodClearParent(t: Tree, cache: map<NodeId, nat>, next: NodeId, x: NodeId)
    requires Good(t, cache, next) && x in t.nodes && Unlisted(t.nodes, x)
    ensures Good(Tree(WithParent(t.nodes, x, None), t.rank, t.cap), cache, next)
  {
    var u := Tree(WithParent(t.nodes, x, None), t.rank, t.cap);
    ClearParentRanked(t, x);
    WithParentFrame(t.nodes, next, x, None);
    CacheSoundFrame(t, u, cache);
  }

  lemma GoodRebind(t: Tree, cache: map<NodeId, nat>, next: NodeId, x: NodeId, d: NodeId)
    requires Good(t, cache, next) && x in t.nodes && Unlisted(t.nodes, x)
    requires IsDir(t.nodes, d) && x !in Ancestors(t, d)
    ensures Good(Rebind(t, x, d), cache, next)
  {
    RebindRanked(t, x, d);
    WithParentFrame(t.nodes, next, x, Some(d));
    CacheSoundFrame(t, Rebind(t, x, d), cache);
  }

  lemma GoodFresh(t: Tree, cache: map<NodeId, nat>, next: NodeId, n: Node, p: Option<NodeId>)
    requires Good(t, cache, next) && n.parent.None? && ValidName(n.name)
    requires n.kind.Dir? ==> n.kind.children == [] && (n.kind.isRoot <==> n.name == "/")
    requires p.Some? ==> IsDir(t.nodes, p.value)
    ensures var u := Tree(t.nodes[next := n], t.rank[next := 0], t.cap + 1);
      && Good(u, cache, next + 1)
      && (p.Some? ==> next !in Ancestors(u, p.value))
  {
    var u := Tree(t.nodes[next := n], t.rank[next := 0], t.cap + 1);
    FreshRanked(t, next, n);
    FreshFrame(t.nodes, next, n);
    CacheSoundFrame(t, u, cache);
    if p.Some? {
      AncestorsFrame(t, u, p.value);
    }
  }

  /** A fresh parentless node changes no child list and no sibling name. */
  lemma FreshListing(nodes: Nodes, next: NodeId, n: Node, p: Option<NodeId>)
    requires Linked(nodes) && IdsBelow(nodes, next) && n.parent.None? && (p.Some? ==> IsDir(nodes, p.value))
    ensures var u := nodes[next := n];
      && Detachable(u, next) && Detached(u, next) == u
      && WithParent(u, next, p) == nodes[next := n.(parent := p)]
      && (p.Some? ==>
            && IsDir(u, p.value) && Children(u, p.value) == Children(nodes, p.value)
            && (NameTaken(u, Children(u, p.value), n.name) <==> NameTaken(nodes, Children(nodes, p.value), n.name)))
  {
    var u := nodes[next := n];
    if p.Some? {
      NameTakenFrame(nodes, u, Children(nodes, p.value), n.name);
    }
  }

  /** A directory is not below any of its children. */
  lemma NotBelowChild(t: Tree, d: NodeId, c: NodeId)
    requires Ranked(t) && IsDir(t.nodes, d) && c in Children(t.nodes, d)
    ensures c in t.nodes && d !in Reach(t, c)
  {
    assert ChildrenRanked(t, d);
    if d in Reach(t, c) {
      ReachInNodes(t, c, d);
    }
  }

  /** One more child summed: its size joins the total, its directories the cache. */
  lemma SumStep(t: Tree, d: NodeId, i: nat, base: set<NodeId>, before: set<NodeId>, after: set<NodeId>, total: nat, sc: nat)
    requires Ranked(t) && IsDir(t.nodes, d) && i < |Children(t.nodes, d)|
    requires ChildrenRanked(t, d)
    requires total == ChildrenSize(t, Children(t.nodes, d)[..i], t.rank[d])
    requires sc == TrueSize(t, Children(t.nodes, d)[i])
    requires before == base + DirsIn(t.nodes, ReachAll(t, Children(t.nodes, d)[..i], t.rank[d]))
    requires after == before + ReachDirs(t, Children(t.nodes, d)[i])
    ensures total + sc == ChildrenSize(t, Children(t.nodes, d)[..i + 1], t.rank[d])
    ensures after == base + DirsIn(t.nodes, ReachAll(t, Children(t.nodes, d)[..i + 1], t.rank[d]))
  {
    SnocChildren(t, Children(t.nodes, d), i, t.rank[d]);
  }

  /** Caching a directory's true size once all its subdirectories are cached. */
  lemma GoodCacheInsert(t: Tree, cache: map<NodeId, nat>, next: NodeId, id: NodeId, v: nat)
    requires Good(t, cache, next) && IsDir(t.nodes, id) && v == TrueSize(t, id)
    requires forall c: NodeId | c in Children(t.nodes, id) && IsDir(t.nodes, c) :: c in cache
    ensures Good(t, cache[id := v], next)
  {
  }

  /**
    The state `(t, cache, next)` once node `n` has been created from
    `(nodes0, cache0, next0)` and listed: `n` is under the id `next0` and
    last in its parent's child list, and when the parent's size was set it
    and every ancestor lose their cached sizes.
   */
  ghost predicate Added(nodes0: Nodes, cache0: map<NodeId, nat>, next0: NodeId, n: Node,
                        t: Tree, cache: map<NodeId, nat>, next: NodeId)
  {
    && next == next0 + 1
    && match n.parent
       case None => t.nodes == nodes0[next0 := n] && cache == cache0
       case Some(d) =>
         && IsDir(nodes0, d) && IsDir(nodes0[next0 := n], d) && Ranked(t) && d in t.nodes
         && t.nodes == WithChildren(nodes0[next0 := n], d, Children(nodes0, d) + [next0])
         && cache == cache0 - (if d in cache0 then Ancestors(t, d) else {})
  }

  /**
    The state once node `n` has been created but refused by its parent for a
    duplicate name: it stays in the arena, pointing at the parent, unlisted.
   */
  ghost predicate AddedUnlisted(nodes0: Nodes, cache0: map<NodeId, nat>, next0: NodeId, n: Node,
                                t: Tree, cache: map<NodeId, nat>, next: NodeId)
  {
    next == next0 + 1 && t.nodes == nodes0[next0 := n] && cache == cache0
  }

  /** The creation of `n` from `(nodes0, cache0, next0)`, refused or not, as `VFsObject.__init__` does it. */
  ghost predicate Created(nodes0: Nodes, cache0: map<NodeId, nat>, next0: NodeId, n: Node,
                          r: Result<NodeId, FsError>, t: Tree, cache: map<NodeId, nat>, next: NodeId)
  {
    if n.parent.Some? && IsDir(nodes0, n.parent.value) && NameTaken(nodes0, Children(nodes0, n.parent.value), n.name)
    then r == Err(DuplicateName) && AddedUnlisted(nodes0, cache0, next0, n, t, cache, next)
    else r == Ok(next0) && Added(nodes0, cache0, next0, n, t, cache, next)
  }

  class FileSystem {
    var nodes: Nodes
    var cache: map<NodeId, nat>
    /** The id the next object created receives. */
    var next: NodeId
    ghost var rank: map<NodeId, nat>
    ghost var cap: nat

    ghost function Tr(): Tree
      reads this`nodes, this`rank, this`cap
    {
      Tree(nodes, rank, cap)
    }

    ghost predicate Valid()
      reads this
    {
      Good(Tr(), cache, next)
    }

    constructor ()
      ensures Valid() && nodes == map[] && cache == map[] && next == 0
    {
      nodes := map[];
      cache := map[];
      next := 0;
      rank := map[];
      cap := 0;
    }

    /**
      `recalculate_size`: unless the directory is already unset and `force`
      is off, unset it and walk every ancestor, unsetting each.
     */
    method RecalculateSize(d: NodeId, force: bool)
      requires Ranked(Tr()) && IsDir(nodes, d)
      modifies this`cache
      ensures cache == old(cache) - Invalidated(Tr(), old(cache), d, force)
      decreases cap - rank[d]
    {
      if d !in cache && !force {
        return;
      }
      var p := nodes[d].parent;
      cache := cache - {d};
      if p.Some? {
        ParentOf(Tr(), d);
      }
      while p.Some?
        invariant p.Some? ==> IsDir(nodes, p.value) && p.value in Ancestors(Tr(), d) && rank[d] < rank[p.value]
        invariant forall k :: k in cache ==> k in old(cache) && cache[k] == old(cache)[k]
        invariant forall k :: k in old(cache) && k !in Ancestors(Tr(), d) ==> k in cache
        invariant p.None? ==> forall k :: k in Ancestors(Tr(), d) ==> k !in cache
        invariant p.Some? ==> forall k :: k in Ancestors(Tr(), d) && k !in Ancestors(Tr(), p.value) ==> k !in cache
        decreases if p.Some? then cap - rank[p.value] else 0
      {
        var q := p.value;
        AncestorsClosed(Tr(), d, q);
        RecalculateSize(q, false);
        p := nodes[q].parent;
        if p.Some? {
          ParentOf(Tr(), q);
        }
      }
      assert cache == old(cache) - Ancestors(Tr(), d);
    }

    /**
      `size`: a file's own size; for a directory the cached value when set,
      otherwise the sum over the children, which is then cached. Every
      directory below `id` ends up set.
     */
    method Size(id: NodeId) returns (s: nat)
      requires Valid() && id in nodes
      modifies this`cache
      ensures Valid() && Tr() == old(Tr())
      ensures s == TrueSize(Tr(), id)
      ensures cache.Keys == old(cache).Keys + ReachDirs(Tr(), id)
      decreases rank[id], 1
    {
      if nodes[id].kind.File? {
        assert ReachDirs(Tr(), id) == {};
        return nodes[id].kind.size;
      }
      if id in cache {
        CachedReach(Tr(), cache, id);
        return cache[id];
      }
      DirSize(Tr(), id);
      var total := SumChildren(id);
      forall c: NodeId | c in Children(nodes, id) && IsDir(nodes, c) ensures c in cache {
        ReachAllMember(Tr(), Children(nodes, id), rank[id], c);
      }
      GoodCacheInsert(Tr(), cache, next, id, total);
      cache := cache[id := total];
      s := total;
    }

    /** The loop of `size` over an unset directory: the sum of the children's sizes. */
    method SumChildren(id: NodeId) returns (total: nat)
      requires Valid() && IsDir(nodes, id) && id !in cache
      modifies this`cache
      ensures Valid() && id !in cache
      ensures ChildrenRanked(Tr(), id)
      ensures total == ChildrenSize(Tr(), Children(nodes, id), rank[id])
      ensures cache.Keys == old(cache).Keys + DirsIn(nodes, ReachAll(Tr(), Children(nodes, id), rank[id]))
      decreases rank[id], 0
    {
      DirSize(Tr(), id);
      var cs := Children(nodes, id);
      total := 0;
      var i := 0;
      while i < |cs|
        invariant i <= |cs|
        invariant Valid() && id !in cache
        invariant total == ChildrenSize(Tr(), cs[..i], rank[id])
        invariant cache.Keys == old(cache).Keys + DirsIn(nodes, ReachAll(Tr(), cs[..i], rank[id]))
      {
        var c := cs[i];
        NotBelowChild(Tr(), id, c);
        ghost var before := cache.Keys;
        var sc := Size(c);
        SumStep(Tr(), id, i, old(cache).Keys, before, cache.Keys, total, sc);
        total := total + sc;
        i := i + 1;
      }
      assert cs[..i] == cs;
    }

    /** `has_child`: some child of `d` is called `name`. */
    method HasChild(d: NodeId, name: string) returns (b: bool)
      requires Valid() && IsDir(nodes, d)
      ensures b <==> NameTaken(nodes, Children(nodes, d), name)
    {
      var cs := Children(nodes, d);
      var i := 0;
      while i < |cs|
        invariant i <= |cs|
        invariant forall j | 0 <= j < i :: nodes[cs[j]].name != name
      {
        if nodes[cs[i]].name == name {
          return true;
        }
        i := i + 1;
      }
      return false;
    }

    /** `get_child`: the first child of `d` called `name`, if any. */
    method GetChild(d: NodeId, name: string) returns (r: Option<NodeId>)
      requires Valid() && IsDir(nodes, d)
      ensures r.Some? <==> NameTaken(nodes, Children(nodes, d), name)
      ensures r.Some? ==> r.value in Children(nodes, d) && r.value in nodes && nodes[r.value].name == name
    {
      var cs := Children(nodes, d);
      var i := 0;
      while i < |cs|
        invariant i <= |cs|
        invariant forall j | 0 <= j < i :: nodes[cs[j]].name != name
      {
        if nodes[cs[i]].name == name {
          return Some(cs[i]);
        }
        i := i + 1;
      }
      return None;
    }

    /**
      `add_child`: refuses a name a child already has; otherwise appends and
      recalculates. Only `_set_parent` calls it in the modelled core, after
      pointing the child's parent at `d`.
     */
    method AddChild(d: NodeId, x: NodeId) returns (r: Result<NodeId, FsError>)
      requires Valid() && IsDir(nodes, d) && x in nodes && nodes[x].parent == Some(d)
      modifies this`nodes, this`cache
      ensures Valid()
      ensures NameTaken(old(nodes), old(Children(nodes, d)), old(nodes[x].name)) ==>
        r == Err(DuplicateName) && nodes == old(nodes) && cache == old(cache)
      ensures !NameTaken(old(nodes), old(Children(nodes, d)), old(nodes[x].name)) ==>
        && r == Ok(x)
        && nodes == WithChildren(old(nodes), d, old(Children(nodes, d)) + [x])
        && cache == old(cache) - (if d in old(cache) then Ancestors(Tr(), d) else {})
    {
      var taken := HasChild(d, nodes[x].name);
      if taken {
        return Err(DuplicateName);
      }
      GoodAdd(Tr(), cache, next, d, x);
      nodes := WithChildren(nodes, d, Children(nodes, d) + [x]);
      RecalculateSize(d, false);
      return Ok(x);
    }

    /**
      `remove_child`: `list.remove` takes out the first occurrence or raises
      ValueError; the child's own parent pointer is left as it was.
     */
    method RemoveChild(d: NodeId, x: NodeId) returns (r: Result<(), FsError>)
      requires Valid() && IsDir(nodes, d)
      modifies this`nodes, this`cache
      ensures Valid()
      ensures x !in old(Children(nodes, d)) ==>
        r == Err(NotAChild) && nodes == old(nodes) && cache == old(cache)
      ensures x in old(Children(nodes, d)) ==>
        && r == Ok(())
        && nodes == WithChildren(old(nodes), d, RemoveFirst(old(Children(nodes, d)), x))
        && cache == old(cache) - (if d in old(cache) then Ancestors(Tr(), d) else {})
    {
      if x !in Children(nodes, d) {
        return Err(NotAChild);
      }
      GoodRemove(Tr(), cache, next, d, x);
      nodes := WithChildren(nodes, d, RemoveFirst(Children(nodes, d), x));
      RecalculateSize(d, false);
      return Ok(());
    }

    /**
      The first half of `_set_parent`: take `x` out of its old parent's
      list, which `remove_child` refuses with ValueError when the list does
      not hold it. Parent pointers and names stay as they were.
     */
    method Detach(x: NodeId) returns (ok: bool)
      requires Valid() && x in nodes
      modifies this`nodes, this`cache
      ensures Valid()
      ensures ok == old(Detachable(nodes, x))
      ensures !ok ==> nodes == old(nodes) && cache == old(cache)
      ensures ok ==> nodes == old(Detached(nodes, x)) && cache == old(DetachedCache(Tr(), cache, x)) && Unlisted(nodes, x)
      ensures nodes.Keys == old(nodes).Keys
      ensures forall a: NodeId | a in nodes :: nodes[a].parent == old(nodes)[a].parent && nodes[a].name == old(nodes)[a].name
    {
      var q := nodes[x].parent;
      if q.None? {
        OrphanUnlisted(Tr(), cache, next, x);
        return true;
      }
      ParentOf(Tr(), x);
      if x !in Children(nodes, q.value) {
        return false;
      }
      RemoveUnlists(Tr(), cache, next, x);
      ghost var t0 := Tr();
      var _ := RemoveChild(q.value, x);
      AncestorsFrame(t0, Tr(), q.value);
      return true;
    }

    /**
      `_set_parent`: first take `x` out of its old parent's list (ValueError
      when that list does not hold it), then either clear the parent or point
      it at `p` and `add_child`. When that add fails on a duplicate name, `x`
      stays detached from its old parent while its parent already is `p`.
      The source does not guard against cycles; callers here may not hang a
      node below itself.
     */
    method SetParent(x: NodeId, p: Option<NodeId>) returns (r: Result<(), FsError>)
      requires Valid() && x in nodes
      requires p.Some? ==> IsDir(nodes, p.value) && x !in Ancestors(Tr(), p.value)
      modifies this
      ensures Valid() && next == old(next)
      ensures !old(Detachable(nodes, x)) ==>
        r == Err(NotAChild) && nodes == old(nodes) && cache == old(cache)
      ensures old(Detachable(nodes, x)) ==>
        var n1 := old(Detached(nodes, x));
        var c1 := old(DetachedCache(Tr(), cache, x));
        match p
        case None =>
          r == Ok(()) && nodes == WithParent(n1, x, None) && cache == c1
        case Some(d) =>
          var n2 := WithParent(n1, x, Some(d));
          if NameTaken(n1, Children(n1, d), n1[x].name) then
            r == Err(DuplicateName) && nodes == n2 && cache == c1
          else
            && r == Ok(())
            && nodes == WithChildren(n2, d, Children(n1, d) + [x])
            && cache == c1 - (if d in c1 then Ancestors(Tr(), d) else {})
    {
      ghost var t0 := Tr();
      var detached := Detach(x);
      if !detached {
        return Err(NotAChild);
      }
      ghost var t1 := Tr();
      if p.None? {
        GoodClearParent(t1, cache, next, x);
        nodes := WithParent(nodes, x, None);
        return Ok(());
      }
      var d := p.value;
      AncestorsFrame(t0, t1, d);
      r := Attach(x, d);
    }

    /**
      The second half of `_set_parent` for a directory `d`: point the
      detached `x` at `d`, then `add_child`.
     */
    method Attach(x: NodeId, d: NodeId) returns (r: Result<(), FsError>)
      requires Valid() && x in nodes && Unlisted(nodes, x)
      requires IsDir(nodes, d) && x !in Ancestors(Tr(), d)
      modifies this
      ensures Valid() && next == old(next)
      ensures var n2 := old(WithParent(nodes, x, Some(d)));
        if old(NameTaken(nodes, Children(nodes, d), nodes[x].name)) then
          r == Err(DuplicateName) && nodes == n2 && cache == old(cache)
        else
          && r == Ok(())
          && nodes == WithChildren(n2, d, old(Children(nodes, d)) + [x])
          && cache == old(cache) - (if d in old(cache) then Ancestors(Tr(), d) else {})
    {
      ghost var t1 := Tr();
      GoodRebind(t1, cache, next, x, d);
      NameTakenFrame(nodes, WithParent(nodes, x, Some(d)), Children(nodes, d), nodes[x].name);
      nodes := WithParent(nodes, x, Some(d));
      rank := Rebind(t1, x, d).rank;
      cap := Rebind(t1, x, d).cap;
      var a := AddChild(d, x);
      r := if a.Ok? then Ok(()) else Err(DuplicateName);
    }

    /**
      Object creation (`VFsObject.__init__`): the name check, then a fresh
      parentless node, then `_set_parent`. A failing duplicate check leaves
      the fresh node in the arena pointing at `parent` but unlisted, as the
      half-built Python object is.
     */
    method Create(name: string, kind: Kind, parent: Option<NodeId>) returns (r: Result<NodeId, FsError>)
      requires Valid()
      requires kind.Dir? ==> kind.children == [] && (kind.isRoot <==> name == "/")
      requires parent.Some? ==> IsDir(nodes, parent.value)
      modifies this
      ensures Valid()
      ensures !ValidName(name) ==>
        r == Err(InvalidName) && nodes == old(nodes) && cache == old(cache) && next == old(next)
      ensures ValidName(name) ==>
        Created(old(nodes), old(cache), old(next), Node(name, parent, kind), r, Tr(), cache, next)
    {
      if !ValidName(name) {
        return Err(InvalidName);
      }
      var id := AddFresh(name, kind, parent);
      var s := SetParent(id, parent);
      r := if s.Ok? then Ok(id) else Err(DuplicateName);
    }

    /** A fresh parentless node under the next id, not yet listed anywhere. */
    method AddFresh(name: string, kind: Kind, parent: Option<NodeId>) returns (id: NodeId)
      requires Valid() && ValidName(name)
      requires kind.Dir? ==> kind.children == [] && (kind.isRoot <==> name == "/")
      requires parent.Some? ==> IsDir(nodes, parent.value)
      modifies this
      ensures Valid() && id == old(next) && next == id + 1 && cache == old(cache)
      ensures nodes == old(nodes)[id := Node(name, None, kind)]
      ensures Detachable(nodes, id) && Detached(nodes, id) == nodes && DetachedCache(Tr(), cache, id) == cache
      ensures WithParent(nodes, id, parent) == old(nodes)[id := Node(name, parent, kind)]
      ensures parent.Some? ==>
        && IsDir(nodes, parent.value) && id !in Ancestors(Tr(), parent.value)
        && Children(nodes, parent.value) == old(Children(nodes, parent.value))
        && (NameTaken(nodes, Children(nodes, parent.value), name) <==>
            old(NameTaken(nodes, Children(nodes, parent.value), name)))
    {
      id := next;
      var n := Node(name, None, kind);
      GoodFresh(Tr(), cache, next, n, parent);
      FreshListing(nodes, next, n, parent);
      ghost var u := Tree(nodes[id := n], rank[id := 0], cap + 1);
      nodes := nodes[id := n];
      rank := u.rank;
      cap := u.cap;
      next := next + 1;
      assert Tr() == u;
    }

    /** `VFile(name, size, parent)`: the size check comes before the name check. */
    method NewFile(name: string, size: int, parent: Option<NodeId>) returns (r: Result<NodeId, FsError>)
      requires Valid()
      requires parent.Some? ==> IsDir(nodes, parent.value)
      modifies this
      ensures Valid()
      ensures size < 0 ==> r == Err(NegativeSize) && nodes == old(nodes) && cache == old(cache) && next == old(next)
      ensures size >= 0 && !ValidName(name) ==>
        r == Err(InvalidName) && nodes == old(nodes) && cache == old(cache) && next == old(next)
      ensures size >= 0 && ValidName(name) ==>
        Created(old(nodes), old(cache), old(next), Node(name, parent, File(size)), r, Tr(), cache, next)
      ensures r.Ok? && parent.Some? ==>
        IsDir(nodes, parent.value) && Children(nodes, parent.value) == old(Children(nodes, parent.value)) + [r.value]
      ensures r.Ok? ==> forall e: NodeId | e in old(nodes) :: e in nodes && nodes[e].name == old(nodes[e].name)
    {
      if size < 0 {
        return Err(NegativeSize);
      }
      r := Create(name, File(size), parent);
    }

    /** `VDirectory(name, parent)`: `is_root` holds exactly when the name is "/". */
    method NewDirectory(name: string, parent: Option<NodeId>) returns (r: Result<NodeId, FsError>)
      requires Valid()
      requires parent.Some? ==> IsDir(nodes, parent.value)
      modifies this
      ensures Valid()
      ensures !ValidName(name) ==> r == Err(InvalidName) && nodes == old(nodes) && cache == old(cache) && next == old(next)
      ensures ValidName(name) ==>
        Created(old(nodes), old(cache), old(next), Node(name, parent, Dir([], name == "/")), r, Tr(), cache, next)
      ensures r.Ok? && parent.Some? ==>
        IsDir(nodes, parent.value) && Children(nodes, parent.value) == old(Children(nodes, parent.value)) + [r.value]
      ensures r.Ok? ==> forall e: NodeId | e in old(nodes) :: e in nodes && nodes[e].name == old(nodes[e].name)
    {
      r := Create(name, Dir([], name == "/"), parent);
    }

    /**
      `path`: the bare name without a parent, "/" and the name below a root
      directory, otherwise the parent's path, "/" and the name.
     */
    function Path(id: NodeId): (s: string)
      reads this
      requires Ranked(Tr()) && id in nodes
      ensures nodes[id].parent.None? ==> s == nodes[id].name
      ensures |nodes[id].name| < |s| || nodes[id].parent.None?
      ensures s[|s| - |nodes[id].name|..] == nodes[id].name
      decreases cap - rank[id]
    {
      match nodes[id].parent
      case None => nodes[id].name
      case Some(p) =>
        ParentOf(Tr(), id);
        if nodes[p].kind.isRoot then "/" + nodes[id].name
        else Path(p) + "/" + nodes[id].name
    }

    /** Below a root-flagged directory every path is absolute. */
    lemma {:induction false} PathAbsolute(id: NodeId, a: NodeId)
      requires Ranked(Tr()) && id in nodes && a in Ancestors(Tr(), id) && a != id
      requires IsDir(nodes, a) && nodes[a].kind.isRoot
      ensures |Path(id)| > 0 && Path(id)[0] == '/'
      decreases cap - rank[id]
    {
      var p := nodes[id].parent.value;
      ParentOf(Tr(), id);
      if !nodes[p].kind.isRoot {
        PathAbsolute(p, a);
        assert Path(id) == Path(p) + "/" + nodes[id].name;
      }
    }
  }
}
