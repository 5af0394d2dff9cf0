/** Copying a namespace: every node first, then every layer against the map from old to new nodes
    (ns/clone.go). */
module Cloning {
  import opened Bytes
  import opened Messages
  import opened Names
  import opened Paths
  import opened BindGraph
  import opened Acyclic
  import opened Remap
  import opened Namespaces
  import opened Resolving

  /** The nodes at or below n. */
  ghost function Below(ns: Namespace, n: Node): (s: set<Node>)
    requires n in ns.at
    reads ns`at
    ensures s <= ns.at.Keys
  {
    set d | d in ns.at && ns.at[n] <= ns.at[d]
  }

  lemma ChildBelow(ns: Namespace, n: Node, k: Name)
    requires ns.TreeShaped() && n in ns.at && k in n.children
    ensures n.children[k] in ns.at && Below(ns, n.children[k]) < Below(ns, n) && n !in Below(ns, n.children[k])
  {
    var child := n.children[k];
    assert ns.at[child] == ns.at[n] + [k];
    assert forall d | d in Below(ns, child) :: ns.at[n] <= ns.at[child] <= ns.at[d];
    assert n in Below(ns, n);
  }

  /** Whatever is strictly below n is at or below exactly one of its children. */
  lemma BelowAChild(ns: Namespace, n: Node, d: Node)
    requires ns.TreeShaped() && n in ns.at && d in Below(ns, n) && d != n
    ensures |ns.at[n]| < |ns.at[d]|
    ensures var k := ns.at[d][|ns.at[n]|]; k in n.children && n.children[k] in ns.at && d in Below(ns, n.children[k])
  {
    assert ns.at[n] <= ns.at[d] && ns.at[n] != ns.at[d];
    var i := |ns.at[n]|;
    assert ns.HasPath(ns.at[d]);
    ns.AncestorHere(ns.at[d], i + 1);
    var m :| m in ns.at && ns.at[m] == ns.at[d][..i + 1];
    assert ns.at[m] == ns.at[n] + [ns.at[d][i]];
    ns.PathIsTaken(n, ns.at[d][i], m);
  }

  /** n itself and what is below its children other than those still left. */
  ghost function Done(ns: Namespace, n: Node, left: set<Name>): (s: set<Node>)
    requires n in ns.at
    reads ns`at
    ensures s <= ns.at.Keys
  {
    set d | d in Below(ns, n) && (d == n || (|ns.at[d]| > |ns.at[n]| && ns.at[d][|ns.at[n]|] !in left))
  }

  lemma DoneAtFirst(ns: Namespace, n: Node)
    requires ns.TreeShaped() && n in ns.at
    ensures n in Below(ns, n) && Done(ns, n, n.children.Keys) == {n} && Done(ns, n, {}) == Below(ns, n)
  {
    forall d | d in Below(ns, n) && d != n
      ensures |ns.at[n]| < |ns.at[d]| && ns.at[d][|ns.at[n]|] in n.children
    {
      BelowAChild(ns, n, d);
    }
  }

  lemma DoneWith(ns: Namespace, n: Node, left: set<Name>, k: Name)
    requires ns.TreeShaped() && n in ns.at && left <= n.children.Keys && k in left
    ensures n.children[k] in ns.at && Below(ns, n.children[k]) < Below(ns, n)
    ensures Done(ns, n, left - {k}) == Done(ns, n, left) + Below(ns, n.children[k])
    ensures Done(ns, n, left) !! Below(ns, n.children[k])
  {
    ChildBelow(ns, n, k);
    var child := n.children[k];
    assert ns.at[child] == ns.at[n] + [k];
    forall d | d in Below(ns, child)
      ensures d in Below(ns, n) && |ns.at[d]| > |ns.at[n]| && ns.at[d][|ns.at[n]|] == k
    {
      assert ns.at[d][|ns.at[n]|] == ns.at[child][|ns.at[n]|];
    }
    forall d | d in Below(ns, n) && d != n && ns.at[d][|ns.at[n]|] == k
      ensures d in Below(ns, child)
    {
      BelowAChild(ns, n, d);
    }
  }

  /** c has n's shape, with the copies of n's children, and still n's own layers. */
  ghost predicate ShapeOf(n: Node, c: Node, m: map<Node, Node>)
    reads n, c
  {
    && c.layers == n.layers && c.pathHash == n.pathHash && c.children.Keys == n.children.Keys
    && forall k | k in n.children :: n.children[k] in m && c.children[k] == m[n.children[k]]
  }

  /** A map that has grown still gives the copies the same shapes. */
  lemma ShapesKept(s: set<Node>, m: map<Node, Node>, r: map<Node, Node>)
    requires forall d | d in s :: d in m && ShapeOf(d, m[d], m)
    requires forall d | d in m :: d in r && r[d] == m[d]
    ensures forall d | d in s :: d in r && ShapeOf(d, r[d], r)
  {
  }

  /** First pass: copies the tree at n and adds the copies to the map. */
  method CloneNode(ns: Namespace, n: Node, remap: map<Node, Node>) returns (cp: Node, r: map<Node, Node>)
    requires ns.TreeShaped() && n in ns.at
    requires forall d | d in remap :: d !in Below(ns, n)
    ensures r.Keys == remap.Keys + Below(ns, n) && n in r && cp == r[n]
    ensures forall d | d in remap :: r[d] == remap[d]
    ensures forall d | d in Below(ns, n) :: fresh(r[d]) && ShapeOf(d, r[d], r)
    ensures forall a, b | a in Below(ns, n) && b in Below(ns, n) && r[a] == r[b] :: a == b
    decreases Below(ns, n)
  {
    hide Below, Done, Namespace.TreeShaped, ShapeOf;
    cp := new Node(n.pathHash);
    cp.layers := n.layers;
    r := remap[n := cp];
    var copies: map<Name, Node> := map[];
    var left := n.children.Keys;
    DoneAtFirst(ns, n);
    while left != {}
      invariant left <= n.children.Keys && n in Done(ns, n, left) && r.Keys == remap.Keys + Done(ns, n, left)
      invariant copies.Keys == n.children.Keys - left && cp.layers == n.layers
      invariant forall k | k in copies :: n.children[k] in r && copies[k] == r[n.children[k]]
      invariant r[n] == cp && forall d | d in remap :: r[d] == remap[d]
      invariant forall d | d in Done(ns, n, left) :: fresh(r[d]) && (d != n ==> r[d] != cp)
      invariant forall d | d in Done(ns, n, left) - {n} :: ShapeOf(d, r[d], r)
      invariant forall a, b | a in Done(ns, n, left) && b in Done(ns, n, left) && r[a] == r[b] :: a == b
      decreases left
    {
      var k :| k in left;
      DoneWith(ns, n, left, k);
      var copy;
      ghost var was := r;
      copy, r := CloneNode(ns, n.children[k], r);
      ShapesKept(Done(ns, n, left) - {n}, was, r);
      copies := copies[k := copy];
      left := left - {k};
    }
    label linking:
    assert forall d | d in Below(ns, n) - {n} :: d != cp && r[d] != cp;
    cp.children := copies;
    forall d | d in Below(ns, n) - {n}
      ensures ShapeOf(d, r[d], r)
    {
      assert old@linking(ShapeOf(d, r[d], r));
    }
    ShapeMade(n, cp, r);
  }

  lemma ShapeMade(n: Node, c: Node, m: map<Node, Node>)
    requires c.layers == n.layers && c.pathHash == n.pathHash && c.children.Keys == n.children.Keys
    requires forall k | k in n.children :: n.children[k] in m && c.children[k] == m[n.children[k]]
    ensures ShapeOf(n, c, m)
  {
  }

  // ----- second pass -----

  ghost predicate LayerCopy(l: Layer, cp: Layer, m: map<Node, Node>)
    reads l, cp
  {
    && cp.fs == l.fs && cp.subpath == l.subpath && cp.spec == l.spec && cp.number == l.number && cp.ro == l.ro
    && cp.resolved == match l.resolved case None => None case Some(f) => Some(RemapFile(f, m))
  }

  ghost predicate LayersCopied(was: seq<Layer>, now: seq<Layer>, m: map<Node, Node>)
    reads was, now
  {
    |now| == |was| && forall i | 0 <= i < |was| :: LayerCopy(was[i], now[i], m)
  }

  method CloneLayer(l: Layer, remap: map<Node, Node>) returns (cp: Layer)
    ensures fresh(cp) && LayerCopy(l, cp, remap)
  {
    var resolved := None;
    if l.resolved.Some? {
      resolved := Some(RemapFile(l.resolved.value, remap));
    }
    cp := new Layer(l.fs, l.subpath, resolved, l.spec, l.number, l.ro);
  }

  method FixLayers(n: Node, remap: map<Node, Node>)
    modifies n`layers
    ensures LayersCopied(old(n.layers), n.layers, remap) && fresh(n.layers)
  {
    var i := 0;
    ghost var made: seq<Layer> := [];
    while i < |n.layers|
      invariant 0 <= i <= |n.layers| == |old(n.layers)| && |made| == i
      invariant forall j | 0 <= j < i :: n.layers[j] == made[j] && LayerCopy(old(n.layers)[j], made[j], remap)
      invariant forall j | i <= j < |n.layers| :: n.layers[j] == old(n.layers)[j]
      invariant fresh(made)
    {
      var cp := CloneLayer(n.layers[i], remap);
      n.layers := n.layers[i := cp];
      made := made + [cp];
      i := i + 1;
    }
    assert n.layers == made;
  }

  /** Gives every node at or below n its own layers, in order, against the map. */
  method Fix(c: Namespace, n: Node, remap: map<Node, Node>)
    requires c.TreeShaped() && n in c.at
    modifies Below(c, n)`layers
    ensures c.TreeShaped()
    ensures forall d | d in Below(c, n) :: LayersCopied(old(d.layers), d.layers, remap) && fresh(d.layers)
    decreases Below(c, n)
  {
    hide Below, Done, Namespace.TreeShaped, LayersCopied;
    DoneAtFirst(c, n);
    FixLayers(n, remap);
    TreeKeptBy(c);
    var left := n.children.Keys;
    while left != {}
      invariant left <= n.children.Keys && c.TreeShaped() && n.children == old(n.children)
      invariant n in Done(c, n, left)
      invariant forall d | d in Done(c, n, left) :: LayersCopied(old(d.layers), d.layers, remap) && fresh(d.layers)
      invariant forall d | d in Below(c, n) && d !in Done(c, n, left) :: d.layers == old(d.layers)
      decreases left
    {
      var k :| k in left;
      DoneWith(c, n, left, k);
      Fix(c, n.children[k], remap);
      left := left - {k};
    }
  }

  twostate lemma TreeKeptBy(new c: Namespace)
    requires old(allocated(c)) && old(c.TreeShaped()) && c.at == old(c.at)
    requires forall n | n in c.at :: n.children == old(n.children)
    ensures c.TreeShaped()
  {
    c.TreeKept();
  }

  // ----- the whole copy -----

  ghost predicate NodeCopied(n: Node, c: Node, m: map<Node, Node>)
    reads n, c, n.layers, c.layers
  {
    && c.pathHash == n.pathHash && c.children.Keys == n.children.Keys
    && (forall k | k in n.children :: n.children[k] in m && c.children[k] == m[n.children[k]])
    && LayersCopied(n.layers, c.layers, m)
  }

  /** c is the tree of ns over other nodes, path for path. */
  ghost predicate CopyOfNamespace(ns: Namespace, m: map<Node, Node>, c: Namespace)
    reads ns, c, ns.at.Keys, c.at.Keys, ns.owned, c.owned
    requires ns.Shaped() && c.Shaped()
  {
    && m.Keys == ns.at.Keys && c.at.Keys == m.Values && Injective(m) && ns.at.Keys !! c.at.Keys
    && c.root == m[ns.root] && c.user == ns.user && c.hash == ns.hash && c.seqNo == ns.seqNo
    && forall n | n in ns.at :: c.at[m[n]] == ns.at[n] && NodeCopied(n, m[n], m)
  }

  /** No layer of the tree holds a file with a tree node behind an nsFile that has left the tree. */
  ghost predicate NothingHidden(ns: Namespace)
    reads ns, ns.at.Keys, ns.owned
    requires ns.Shaped()
  {
    forall n | n in ns.at :: forall l | l in n.layers :: l.resolved.Some? ==> !Hides(l.resolved.value)
  }

  /** The copy shares no node and no layer with the original, and as a tree is it under the map. It
      is a namespace in its own right exactly when nothing is hidden; otherwise some layer of it
      still leads into the original. */
  method Clone(ns: Namespace) returns (c: Namespace, ghost m: map<Node, Node>)
    requires ns.Valid()
    ensures fresh(c) && fresh(c.at.Keys) && fresh(c.owned)
    ensures c.Shaped() && CopyOfNamespace(ns, m, c)
    ensures forall w :: Copied(ns.Nodes(w), m, c.Nodes(w))
    ensures c.Valid() <==> NothingHidden(ns)
  {
    hide NodeCopied, Namespace.TreeShaped, Namespace.LayersOwned, Namespace.Holds, NothingHidden, Copied;
    c, m := CopyBoth(ns);
    CopyIsShaped(ns, m, c);
    CopyIsWhole(ns, m, c);
  }

  /** Both passes. */
  method CopyBoth(ns: Namespace) returns (c: Namespace, ghost m: map<Node, Node>)
    requires ns.Valid()
    ensures fresh(c) && fresh(c.at.Keys) && fresh(c.owned) && c.TreeShaped()
    ensures m.Keys == ns.at.Keys && Injective(m) && ns.root in m && c.root == m[ns.root] && c.at.Keys == m.Values
    ensures c.user == ns.user && c.hash == ns.hash && c.seqNo == ns.seqNo
    ensures forall n | n in ns.at :: c.at[m[n]] == ns.at[n] && NodeCopied(n, m[n], m)
    ensures forall n | n in ns.at :: forall l | l in m[n].layers :: l in c.owned
    ensures forall l | l in c.owned :: exists n | n in ns.at :: l in m[n].layers
  {
    hide Below, LayersCopied, NodeCopied, Namespace.TreeShaped, Namespace.LayersOwned, Namespace.Holds, ShapeOf;
    var remap;
    c, remap := CopyTree(ns);
    m := remap;
    label fixing:
    FixAll(c, remap);
    LayersInPlace@fixing(ns, m, c);
  }

  /** The second pass over the whole copy, which then owns the layers it has. */
  method FixAll(c: Namespace, remap: map<Node, Node>)
    requires c.TreeShaped()
    modifies c.at.Keys`layers, c`owned
    ensures c.TreeShaped() && c.owned == (set d, l | d in c.at.Keys && l in d.layers :: l) && fresh(c.owned)
    ensures forall d | d in c.at :: LayersCopied(old(d.layers), d.layers, remap)
  {
    hide Below, LayersCopied, Namespace.TreeShaped;
    EverythingBelow(c);
    Fix(c, c.root, remap);
    c.owned := set d, l | d in c.at.Keys && l in d.layers :: l;
  }

  lemma CopyIsWhole(ns: Namespace, m: map<Node, Node>, c: Namespace)
    requires ns.Valid() && c.Shaped() && CopyOfNamespace(ns, m, c)
    requires forall l | l in c.owned :: exists n | n in ns.at :: l in m[n].layers
    ensures forall w :: Copied(ns.Nodes(w), m, c.Nodes(w))
    ensures c.Valid() <==> NothingHidden(ns)
  {
    hide CopyOfNamespace, NothingHidden, Copied, Namespace.TreeShaped, Namespace.LayersOwned, Namespace.Holds;
    forall w
      ensures Copied(ns.Nodes(w), m, c.Nodes(w))
    {
      NodesCopied(ns, m, c, w);
    }
    ValidUnlessHidden(ns, m, c);
  }

  /** The first pass over the whole tree: a namespace of the copies, its layers still the original's. */
  method CopyTree(ns: Namespace) returns (c: Namespace, m: map<Node, Node>)
    requires ns.Valid()
    ensures fresh(c) && fresh(c.at.Keys) && c.owned == {} && c.TreeShaped()
    ensures m.Keys == ns.at.Keys && Injective(m) && ns.root in m && c.root == m[ns.root] && c.at.Keys == m.Values
    ensures c.user == ns.user && c.hash == ns.hash && c.seqNo == ns.seqNo
    ensures forall n | n in m :: m[n] in c.at && c.at[m[n]] == ns.at[n] && ShapeOf(n, m[n], m)
  {
    hide Below, Namespace.TreeShaped, Namespace.LayersOwned, Namespace.Holds, ShapeOf;
    EverythingBelow(ns);
    var root;
    root, m := CloneNode(ns, ns.root, map[]);
    c := new Namespace.Over(root, ns.user, ns.hash, ns.seqNo, map n | n in m :: m[n] := ns.at[n]);
    AtOfCopy(ns, m, c.at);
    CopyIsTreeShaped(ns, m, c);
  }

  /** After the second pass the copies have layers of their own. */
  twostate lemma LayersInPlace(new ns: Namespace, new m: map<Node, Node>, new c: Namespace)
    requires old(allocated(ns)) && old(allocated(c)) && old(allocated(m))
    requires m.Keys == ns.at.Keys && c.at.Keys == m.Values && c.at == old(c.at)
    requires forall n | n in m :: old(allocated(n)) && old(ShapeOf(n, m[n], m))
    requires forall n | n in m :: n.children == old(n.children) && n.layers == old(n.layers)
    requires forall d | d in c.at :: d.children == old(d.children) && LayersCopied(old(d.layers), d.layers, m)
    requires c.owned == set d, l | d in c.at.Keys && l in d.layers :: l
    ensures forall n | n in ns.at :: NodeCopied(n, m[n], m) && forall l | l in m[n].layers :: l in c.owned
    ensures forall l | l in c.owned :: exists n | n in ns.at :: l in m[n].layers
  {
    hide LayersCopied, ShapeOf;
    forall n | n in ns.at
      ensures NodeCopied(n, m[n], m) && forall l | l in m[n].layers :: l in c.owned
    {
      assert m[n] in c.at && LayersCopied(old(m[n].layers), m[n].layers, m);
      ShapeGives(n, m[n], m);
    }
    forall l | l in c.owned
      ensures exists n | n in ns.at :: l in m[n].layers
    {
      var d :| d in c.at && l in d.layers;
      var n :| n in ns.at && m[n] == d;
    }
  }

  lemma EverythingBelow(ns: Namespace)
    requires ns.TreeShaped()
    ensures ns.root in ns.at && Below(ns, ns.root) == ns.at.Keys
  {
  }

  lemma AtOfCopy(ns: Namespace, m: map<Node, Node>, at: map<Node, seq<Name>>)
    requires m.Keys == ns.at.Keys && Injective(m) && at == map n | n in m :: m[n] := ns.at[n]
    ensures at.Keys == m.Values && forall n | n in m :: m[n] in at && at[m[n]] == ns.at[n]
  {
    assert forall n | n in m :: m[n] in at && at[m[n]] == ns.at[n];
  }

  lemma CopyIsTreeShaped(ns: Namespace, m: map<Node, Node>, c: Namespace)
    requires ns.TreeShaped() && m.Keys == ns.at.Keys && Injective(m) && c.root == m[ns.root]
    requires c.at.Keys == m.Values && forall n | n in m :: m[n] in c.at && c.at[m[n]] == ns.at[n]
    requires c.hash == ns.hash && forall d | d in m :: ShapeOf(d, m[d], m)
    ensures c.TreeShaped()
  {
    hide Namespace.HasParent;
    forall d, k | d in c.at && k in d.children
      ensures d.children[k] in c.at && c.at[d.children[k]] == c.at[d] + [k]
    {
      var n :| n in m && m[n] == d;
      assert ShapeOf(n, m[n], m);
    }
    forall d | d in c.at && d != c.root
      ensures c.HasParent(d)
    {
      var n :| n in m && m[n] == d;
      ParentCopied(ns, m, c, n);
    }
    forall d, e | d in c.at && e in c.at && c.at[d] == c.at[e]
      ensures d == e
    {
      var n :| n in m && m[n] == d;
      var k :| k in m && m[k] == e;
    }
  }

  lemma ParentCopied(ns: Namespace, m: map<Node, Node>, c: Namespace, n: Node)
    requires ns.TreeShaped() && m.Keys == ns.at.Keys && n in m && n != ns.root
    requires forall n | n in m :: m[n] in c.at && c.at[m[n]] == ns.at[n]
    requires forall d | d in m :: ShapeOf(d, m[d], m)
    ensures m[n] in c.at && c.HasParent(m[n])
  {
    assert ns.HasParent(n);
    var last := ns.at[n][|ns.at[n]| - 1];
    var p :| p in ns.at && last in p.children && p.children[last] == n;
    assert ShapeOf(p, m[p], m) && m[p].children[last] == m[n];
  }

  /** Shapes say what they say whatever happens to layers. */
  twostate lemma ShapeGives(new n: Node, new d: Node, new m: map<Node, Node>)
    requires old(allocated(n)) && old(allocated(d)) && old(allocated(m)) && old(ShapeOf(n, d, m))
    requires n.children == old(n.children) && d.children == old(d.children) && n.layers == old(n.layers)
    ensures old(d.layers) == n.layers && d.pathHash == n.pathHash && d.children.Keys == n.children.Keys
    ensures forall k | k in n.children :: n.children[k] in m && d.children[k] == m[n.children[k]]
  {
  }

  lemma CopyIsShaped(ns: Namespace, m: map<Node, Node>, c: Namespace)
    requires ns.Shaped() && c.TreeShaped() && m.Keys == ns.at.Keys && c.at.Keys == m.Values
    requires forall n | n in ns.at :: c.at[m[n]] == ns.at[n] && NodeCopied(n, m[n], m)
    requires forall n | n in ns.at :: forall l | l in m[n].layers :: l in c.owned
    ensures c.Shaped()
  {
    hide Canonical, LayerCopy, Namespace.TreeShaped;
    forall d | d in c.at
      ensures (forall l | l in d.layers :: l in c.owned) && (d.layers != [] ==> Canonical(c.at[d]))
    {
      var n :| n in ns.at && m[n] == d;
      assert NodeCopied(n, m[n], m);
    }
  }

  lemma NodesCopied(ns: Namespace, m: map<Node, Node>, c: Namespace, w: World)
    requires ns.Valid() && c.Shaped() && CopyOfNamespace(ns, m, c)
    ensures Copied(ns.Nodes(w), m, c.Nodes(w))
  {
    hide Namespace.TreeShaped, Canonical, LayersCopied, Views, RemapLayers;
    var nodes, copy := ns.Nodes(w), c.Nodes(w);
    forall n | n in nodes
      ensures CopyOf(nodes[n], copy[m[n]], m)
    {
      assert NodeCopied(n, m[n], m);
      ViewsCopied(n.layers, m[n].layers, m, w);
    }
  }

  lemma ViewsCopied(was: seq<Layer>, now: seq<Layer>, m: map<Node, Node>, w: World)
    requires LayersCopied(was, now, m)
    ensures Views(now, w) == RemapLayers(Views(was, w), m)
  {
    hide Views;
    forall i | 0 <= i < |was|
      ensures now[i].View(w) == RemapLayer(was[i].View(w), m)
    {
      assert LayerCopy(was[i], now[i], m);
      RootCopied(was[i], now[i], m, w);
    }
  }

  /** A filesystem's root is shared; what was captured is remapped. */
  lemma RootCopied(l: Layer, cp: Layer, m: map<Node, Node>, w: World)
    requires LayerCopy(l, cp, m)
    ensures cp.Root(w) == match l.Root(w) case None => None case Some(f) => Some(RemapFile(f, m))
  {
  }

  lemma HoldsUnlessHidden(ns: Namespace, m: map<Node, Node>, c: Namespace, n: Node, i: nat)
    requires ns.Valid() && c.Shaped() && CopyOfNamespace(ns, m, c) && n in ns.at && i < |n.layers|
    ensures |m[n].layers| == |n.layers|
    ensures var f := n.layers[i].resolved; c.Holds(m[n].layers[i]) <==> (f.Some? ==> !Hides(f.value))
  {
    hide Namespace.TreeShaped, Canonical;
    assert NodeCopied(n, m[n], m) && LayerCopy(n.layers[i], m[n].layers[i], m);
    assert n.layers[i] in ns.owned && ns.Holds(n.layers[i]);
    var f := n.layers[i].resolved;
    if f.Some? {
      RemapMoves(f.value, m);
      if Core(f.value).Some? {
        assert m[Core(f.value).value] in m.Values;
      }
    }
  }

  lemma ValidUnlessHidden(ns: Namespace, m: map<Node, Node>, c: Namespace)
    requires ns.Valid() && c.Shaped() && CopyOfNamespace(ns, m, c)
    requires forall l | l in c.owned :: exists n | n in ns.at :: l in m[n].layers
    ensures c.Valid() <==> NothingHidden(ns)
  {
    hide Namespace.TreeShaped, Canonical, Namespace.Holds;
    if NothingHidden(ns) {
      forall l | l in c.owned
        ensures c.Holds(l)
      {
        var n :| n in ns.at && l in m[n].layers;
        assert NodeCopied(n, m[n], m);
        var i :| 0 <= i < |m[n].layers| && m[n].layers[i] == l;
        HoldsUnlessHidden(ns, m, c, n, i);
        assert n.layers[i] in n.layers;
      }
    } else {
      var n, l :| n in ns.at && l in n.layers && l.resolved.Some? && Hides(l.resolved.value);
      var i :| 0 <= i < |n.layers| && n.layers[i] == l;
      HoldsUnlessHidden(ns, m, c, n, i);
      assert m[n].layers[i] in m[n].layers;
    }
  }

  // ----- what a clone is for -----

  lemma CapturesHide(ns: Namespace, w: World)
    requires ns.Valid() && NothingHidden(ns)
    ensures NoneHidden(ns.Nodes(w))
  {
    hide Namespace.TreeShaped, Namespace.LayersOwned, Namespace.Holds, Canonical, LayerState.Root, Hides, Namespace.Nodes;
    forall n, i | n in ns.Nodes(w) && 0 <= i < |ns.Nodes(w)[n].layers| && ns.Nodes(w)[n].layers[i].root.Some?
      ensures !Hides(ns.Nodes(w)[n].layers[i].root.value)
    {
      ns.NodeView(w, n);
      ns.LayerIsOwned(w, n, i);
      n.layers[i].AttachedOutside(w);
      Namespace.RootIfResolved(n.layers[i], w);
      if Hides(n.layers[i].Root(w).value) {
        HiddenCore(n.layers[i].Root(w).value);
      }
      assert n.layers[i] in n.layers;
    }
  }

  lemma CloneMirrors(ns: Namespace, m: map<Node, Node>, c: Namespace, w: World)
    requires ns.Valid() && c.Valid() && CopyOfNamespace(ns, m, c) && NothingHidden(ns) && Closed(ns.Nodes(w))
    ensures Mirrored(ns.Nodes(w), m, c.Nodes(w))
  {
    NodesCopied(ns, m, c, w);
    CapturesHide(ns, w);
    hide Copied, Mirrored, NoneHidden, Namespace.Valid, Namespace.Nodes;
    CopyMirrors(ns.Nodes(w), m, c.Nodes(w));
  }

  /** A fresh clone answers every walk, listing, stat and resolution as the original does. */
  lemma CloneAnswers(ns: Namespace, m: map<Node, Node>, c: Namespace, w: World,
                     rank: map<Node, nat>, rank2: map<Node, nat>, path: seq<Name>)
    requires ns.Valid() && c.Valid() && CopyOfNamespace(ns, m, c) && NothingHidden(ns)
    requires Sound(ns.SpaceOf(w, rank)) && Sound(c.SpaceOf(w, rank2))
    ensures ns.root in ns.SpaceOf(w, rank).nodes && c.root in c.SpaceOf(w, rank2).nodes
    ensures var s, s2 := ns.SpaceOf(w, rank), c.SpaceOf(w, rank2);
            var got, got2 := WalkAll(w, s, Tree(ns.root), path), WalkAll(w, s2, Tree(c.root), path);
            && got2 == MovedAnswer(got, m)
            && (got.Some? ==> List(w, s2, got2.value) == List(w, s, got.value)
                              && StatOf(w, s2, got2.value) == StatOf(w, s, got.value))
            && ResolveFrom(w, s2, c.root, path, 0) == ResolveFrom(w, s, ns.root, path, 0)
  {
    var s, s2 := ns.SpaceOf(w, rank), c.SpaceOf(w, rank2);
    assert CopySpace(s, m, s2) by {
      CloneMirrors(ns, m, c, w);
    }
    assert ns.root in s.nodes && c.root in s2.nodes;
    hide CopySpace, CopyOfNamespace, Namespace.Valid, NothingHidden, WalkAll, List, StatOf, ResolveFrom;
    AnswersMove(w, s, m, s2, ns.root, path);
  }
}
