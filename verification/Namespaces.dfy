/** The namespace itself: nodes and layers on the heap, changed in place by binds, and walked,
    listed and resolved through layers that attach on first use (ns/ns.go, ns/file.go, ns/binds.go). */
module Namespaces {
  import opened Bytes
  import opened Messages
  import opened DirPaging
  import opened Names
  import opened Paths
  import opened BindGraph
  import opened Resolving
  import opened Acyclic

  /** Down a bound filesystem. */
  function WalkBase(w: World, id: FileId, path: seq<Name>): Option<FileId>
    decreases |path|
  {
    if path == [] then Some(id)
    else match w.walk(id, path[0]) case None => None case Some(c) => WalkBase(w, c, path[1..])
  }

  predicate IsPrefix(q: seq<Name>, path: seq<Name>)
  {
    q <= path
  }

  /** The dev a layer stamps: none for a bound path. */
  function DevOf(fs: Option<nat>, number: nat): uint32
  {
    if fs == None then 0 else number % 0x1_0000_0000
  }

  /** A layer at one moment. */
  datatype LayerState = LayerState(
    fs: Option<nat>, subpath: seq<Name>, resolved: Option<File<Node>>, spec: Name, number: nat, ro: bool)
  {
    function Dev(): uint32
    {
      DevOf(fs, number)
    }

    /** The layer's root: as resolved before, or as attaching now would give. */
    function Root(w: World): Option<File<Node>>
    {
      if resolved.Some? then resolved
      else if fs == None then None
      else match w.attach(fs.value)
        case None => None
        case Some(id) =>
          match WalkBase(w, id, subpath)
          case None => None
          case Some(c) => Some(if ro then ReadOnly(Base(c)) else Base(c))
    }
  }

  /** One filesystem or one captured file at a bind point. */
  class Layer {
    const fs: Option<nat>
    const subpath: seq<Name>
    var resolved: Option<File<Node>>
    const spec: Name
    const number: nat
    const ro: bool

    constructor (fs: Option<nat>, subpath: seq<Name>, resolved: Option<File<Node>>, spec: Name, number: nat, ro: bool)
      ensures this.fs == fs && this.subpath == subpath && this.resolved == resolved
      ensures this.spec == spec && this.number == number && this.ro == ro
    {
      this.fs, this.subpath, this.resolved, this.spec, this.number, this.ro := fs, subpath, resolved, spec, number, ro;
    }

    function State(): LayerState
      reads this
    {
      LayerState(fs, subpath, resolved, spec, number, ro)
    }

    function Dev(): uint32
    {
      DevOf(fs, number)
    }

    function Root(w: World): Option<File<Node>>
      reads this
    {
      State().Root(w)
    }

    lemma AttachedOutside(w: World)
      ensures resolved == None && Root(w).Some? ==>
                fs.Some? && Core(Root(w).value) == None && (ro ==> Root(w).value.ReadOnly?)
    {
    }

    function View(w: World): LayerView<Node>
      reads this
    {
      LayerView(Root(w), Dev(), number, ro, spec)
    }

    /** Attaches and walks on first use and keeps what it found; a failure is not kept. */
    method GetRoot(w: World) returns (r: Option<File<Node>>)
      modifies this`resolved
      ensures r == Root(w) == old(Root(w))
      ensures resolved == if old(resolved).Some? then old(resolved) else r
    {
      if resolved.Some? || fs == None {
        return resolved;
      }
      var f := w.attach(fs.value);
      var k := 0;
      while f.Some? && k < |subpath|
        invariant 0 <= k <= |subpath|
        invariant match w.attach(fs.value)
                  case None => f == None
                  case Some(id) =>
                    WalkBase(w, id, subpath) == if f.Some? then WalkBase(w, f.value, subpath[k..]) else None
        decreases |subpath| - k, if f.Some? then 1 else 0
      {
        assert subpath[k..][0] == subpath[k] && subpath[k..][1..] == subpath[k + 1..];
        f := w.walk(f.value, subpath[k]);
        k := if f.Some? then k + 1 else k;
      }
      if f == None {
        return None;
      }
      r := Some(Base(f.value));
      if ro {
        r := Some(ReadOnly(r.value));
      }
      resolved := r;
    }
  }

  ghost function Views(ls: seq<Layer>, w: World): (v: seq<LayerView<Node>>)
    reads ls
    ensures |v| == |ls|
    ensures forall i :: 0 <= i < |ls| ==> v[i] == ls[i].View(w)
  {
    if ls == [] then [] else [ls[0].View(w)] + Views(ls[1..], w)
  }

  class Node {
    var children: map<Name, Node>
    var layers: seq<Layer>
    const pathHash: uint64

    constructor (pathHash: uint64)
      ensures children == map[] && layers == [] && this.pathHash == pathHash
    {
      children, layers, this.pathHash := map[], [], pathHash;
    }

    ghost function View(w: World): NodeView<Node>
      reads this, layers
    {
      NodeView(children, Views(layers, w), pathHash)
    }

    /** Splices new layers in before, after or instead of those already there. */
    method AddLayers(newLayers: seq<Layer>, disp: Option<Disposition>) returns (ok: bool)
      modifies this`layers
      ensures ok == disp.Some?
      ensures layers == if ok then Spliced(old(layers), newLayers, disp.value) else old(layers)
    {
      if disp == None {
        return false;
      }
      match disp.value {
        case Replace => layers := newLayers;
        case Before => layers := newLayers + layers;
        case After => layers := layers + newLayers;
      }
      return true;
    }
  }

  class Namespace {
    const root: Node
    const user: Name
    const hash: seq<Name> -> uint64
    var seqNo: nat
    /** Every node of the tree with its path, and every layer ever put in. */
    ghost var at: map<Node, seq<Name>>
    ghost var owned: set<Layer>

    /** Child edges form a tree that the paths describe, and each node's hash is that of its path. */
    ghost predicate TreeShaped()
      reads this`at, at.Keys
    {
      && root in at && at[root] == []
      && (forall n, k | n in at && k in n.children :: n.children[k] in at && at[n.children[k]] == at[n] + [k])
      && (forall n | n in at && n != root :: HasParent(n))
      && (forall n, m | n in at && m in at && at[n] == at[m] :: n == m)
      && (forall n | n in at :: n.pathHash == hash(at[n]))
    }

    ghost predicate HasParent(n: Node)
      reads this`at, at.Keys
      requires n in at
    {
      && at[n] != []
      && exists p :: p in at && at[n][|at[n]| - 1] in p.children && p.children[at[n][|at[n]| - 1]] == n
    }

    ghost predicate LayersOwned()
      reads this, at.Keys
    {
      && (forall n | n in at :: forall l | l in n.layers :: l in owned)
      && (forall n | n in at && n.layers != [] :: Canonical(at[n]))
    }

    /** What a layer has resolved to: a filesystem's file, or for a path bind any file of this tree. */
    ghost predicate Holds(l: Layer)
      reads this`at, this`seqNo, l
    {
      && (l.resolved.Some? && Core(l.resolved.value).Some? ==> Core(l.resolved.value).value in at)
      && (l.fs.Some? && l.resolved.Some? ==> Core(l.resolved.value) == None)
      && (l.fs == None ==> l.resolved.Some?)
      && (l.ro && l.resolved.Some? ==> l.resolved.value.ReadOnly?)
      && l.number <= seqNo
    }

    ghost predicate Shaped()
      reads this, at.Keys
    {
      TreeShaped() && LayersOwned()
    }

    ghost predicate Valid()
      reads this, at.Keys, owned
    {
      Shaped() && forall l | l in owned :: Holds(l)
    }

    /** The tree as a value, as one request sees it. */
    ghost function Nodes(w: World): map<Node, NodeView<Node>>
      requires Shaped()
      reads this, at.Keys, owned
    {
      map n | n in at :: n.View(w)
    }

    ghost function SpaceOf(w: World, rank: map<Node, nat>): Space<Node>
      requires Shaped()
      reads this, at.Keys, owned
    {
      Space(Nodes(w), user, rank)
    }

    constructor (user: Name, hash: seq<Name> -> uint64)
      ensures Valid() && seqNo == 0 && this.user == user && this.hash == hash
      ensures fresh(root) && at == map[root := []] && owned == {} && root.children == map[] && root.layers == []
    {
      this.user, this.hash := user, hash;
      root := new Node(hash([]));
      seqNo, owned := 0, {};
      new;
      at := map[root := []];
    }

    /** Over a tree of nodes made elsewhere. */
    constructor Over(root: Node, user: Name, hash: seq<Name> -> uint64, seqNo: nat, ghost at: map<Node, seq<Name>>)
      ensures this.root == root && this.user == user && this.hash == hash && this.seqNo == seqNo
      ensures this.at == at && owned == {}
    {
      this.root, this.user, this.hash, this.seqNo := root, user, hash, seqNo;
      this.at, owned := at, {};
    }

    twostate lemma ViewsKept(new ls: seq<Layer>, new w: World)
      requires forall l | l in ls :: old(allocated(l)) && l.Root(w) == old(l.Root(w))
      requires old(allocated(ls))
      ensures Views(ls, w) == old(Views(ls, w))
    {
      hide Views;
      assert forall l | l in ls :: l.View(w) == old(l.View(w));
    }

    twostate lemma SameNodes(new w: World)
      requires old(Shaped()) && Shaped() && at == old(at) && owned == old(owned)
      requires forall n | n in at :: n.children == old(n.children) && n.layers == old(n.layers)
      requires forall l | l in owned :: l.Root(w) == old(l.Root(w))
      ensures Nodes(w) == old(Nodes(w))
    {
      hide TreeShaped, Canonical;
      forall n | n in at
        ensures n.View(w) == old(n.View(w))
      {
        ViewsKept(n.layers, w);
      }
    }

    ghost predicate HasPath(q: seq<Name>)
      reads this`at
    {
      exists n :: n in at && at[n] == q
    }

    /** Nothing of the tree was lost or moved. */
    twostate predicate Branches()
      reads this, at.Keys
    {
      && old(at.Keys) <= at.Keys
      && forall n | n in old(at) ::
           && at[n] == old(at[n])
           && (forall k | k in old(n.children) :: k in n.children && n.children[k] == old(n.children[k]))
           && (forall k | k in n.children :: k in old(n.children) || n.children[k] !in old(at))
    }

    /** Nor was anything bound anywhere. */
    twostate predicate Extends()
      reads this, at.Keys
    {
      && Branches()
      && (forall n | n in old(at) :: n.layers == old(n.layers))
      && (forall n | n in at && n !in old(at) :: n.layers == [])
    }

    /** Layers were put in at one node, which may be new, and nowhere else. */
    twostate predicate PutAt(new n: Node, new newLayers: seq<Layer>, new disp: Option<Disposition>)
      reads this, at.Keys, n
    {
      && (forall m | m in old(at) && m != n :: m in at && m.layers == old(m.layers))
      && (forall m | m in at && m !in old(at) && m != n :: m.layers == [])
      && n.layers == var was := if n in old(at) then old(n.layers) else [];
                     if disp.Some? then Spliced(was, newLayers, disp.value) else was
    }

    /** What a layer has resolved to, it keeps; others may by now hold what they led to anyway. */
    twostate predicate Settles(ls: set<Layer>, new w: World)
      reads ls
    {
      forall l | l in ls :: l.Root(w) == old(l.Root(w)) && (old(l.resolved).Some? ==> l.resolved == old(l.resolved))
    }

    twostate lemma ExtendsIsGrew(new w: World)
      requires old(Shaped()) && Shaped() && Extends() && owned == old(owned)
      requires forall l | l in owned :: l.Root(w) == old(l.Root(w))
      ensures Grew(old(Nodes(w)), Nodes(w))
    {
      hide TreeShaped, Canonical;
      forall n | n in old(at)
        ensures n.View(w).layers == old(n.View(w).layers)
      {
        ViewsKept(n.layers, w);
      }
    }

    /** The node at a path, made with all the nodes on the way that are missing. */
    method EnsureNode(path: seq<Name>) returns (n: Node)
      requires Valid()
      modifies this`at, at.Keys
      ensures Valid() && n in at && at[n] == path
      ensures Extends() && fresh(at.Keys - old(at.Keys))
      ensures forall q :: HasPath(q) <==> old(HasPath(q)) || IsPrefix(q, path)
    {
      hide TreeShaped, LayersOwned, Holds;
      n := root;
      RootIsHere();
      var i := 0;
      while i < |path|
        invariant 0 <= i <= |path|
        invariant Valid() && n in at && at[n] == path[..i]
        invariant Extends() && fresh(at.Keys - old(at.Keys))
        invariant forall q :: HasPath(q) <==> old(HasPath(q)) || IsPrefix(q, path[..i])
      {
        assert path[..i] + [path[i]] == path[..i + 1];
        OneLonger(path, i);
        if path[i] in n.children {
          ChildIsHere(n, path[i]);
          n := n.children[path[i]];
        } else {
          n := AddChild(n, path[i], hash(path[..i + 1]));
        }
        i := i + 1;
      }
    }

    static lemma OneLonger(path: seq<Name>, i: nat)
      requires i < |path|
      ensures forall q :: IsPrefix(q, path[..i + 1]) <==> IsPrefix(q, path[..i]) || q == path[..i + 1]
    {
    }

    lemma RootIsHere()
      requires Valid()
      ensures root in at && at[root] == [] && forall q :: IsPrefix(q, []) ==> HasPath(q)
    {
    }

    lemma ChildIsHere(n: Node, name: Name)
      requires Valid() && n in at && name in n.children
      ensures n.children[name] in at && at[n.children[name]] == at[n] + [name] && HasPath(at[n] + [name])
    {
    }

    /** Whatever has a path one below n's is n's child. */
    lemma PathIsTaken(n: Node, name: Name, m: Node)
      requires TreeShaped() && n in at && m in at && at[m] == at[n] + [name]
      ensures name in n.children && n.children[name] == m
    {
      assert HasParent(m) && at[m][|at[m]| - 1] == name;
      var p :| p in at && name in p.children && p.children[name] == m;
      assert (at[p] + [name])[..|at[p]|] == (at[n] + [name])[..|at[n]|];
    }

    method AddChild(n: Node, name: Name, h: uint64) returns (child: Node)
      requires Valid() && n in at && name !in n.children && h == hash(at[n] + [name])
      modifies this`at, n`children
      ensures Valid() && fresh(child) && at == old(at)[child := old(at[n]) + [name]]
      ensures child.layers == [] && n.children == old(n.children)[name := child]
      ensures Extends()
      ensures forall q :: HasPath(q) <==> old(HasPath(q)) || q == old(at[n]) + [name]
    {
      hide TreeShaped, LayersOwned, Holds, Canonical;
      NoSuchPath(n, name);
      child := new Node(h);
      n.children := n.children[name := child];
      at := at[child := at[n] + [name]];
      ChildAdded(n, name, child);
      PathAdded(n, name, child);
    }

    lemma NoSuchPath(n: Node, name: Name)
      requires TreeShaped() && n in at && name !in n.children
      ensures forall m | m in at :: at[m] != at[n] + [name]
    {
      forall m | m in at
        ensures at[m] != at[n] + [name]
      {
        if at[m] == at[n] + [name] {
          PathIsTaken(n, name, m);
        }
      }
    }

    twostate lemma PathAdded(new n: Node, new name: Name, new child: Node)
      requires NewChild(n, name, child)
      ensures forall q :: HasPath(q) <==> old(HasPath(q)) || q == old(at[n]) + [name]
    {
      forall q
        ensures HasPath(q) <==> old(HasPath(q)) || q == old(at[n]) + [name]
      {
        if old(HasPath(q)) {
          var m :| m in old(at) && old(at)[m] == q;
          assert m in at && at[m] == q;
        }
        assert q == old(at[n]) + [name] ==> child in at && at[child] == q;
      }
    }

    twostate predicate NewChild(new n: Node, new name: Name, new child: Node)
      reads this, at.Keys, owned, child
    {
      && n in old(at) && name !in old(n.children) && child !in old(at)
      && (forall m | m in old(at) :: old(at)[m] != old(at)[n] + [name])
      && at == old(at)[child := old(at)[n] + [name]] && owned == old(owned) && seqNo == old(seqNo)
      && n.children == old(n.children)[name := child] && child.children == map[] && child.layers == []
      && child.pathHash == hash(old(at)[n] + [name])
      && (forall m | m in old(at) :: m.layers == old(m.layers) && (m != n ==> m.children == old(m.children)))
      && (forall l | l in owned :: l.resolved == old(l.resolved))
    }

    twostate lemma ChildAdded(new n: Node, new name: Name, new child: Node)
      requires old(Valid()) && NewChild(n, name, child)
      ensures Valid() && Extends()
    {
      hide TreeShaped, Canonical;
      StillTreeShaped(n, name, child);
      assert LayersOwned();
      forall l | l in owned
        ensures Holds(l)
      {
        assert old(Holds(l));
      }
    }

    twostate lemma StillTreeShaped(new n: Node, new name: Name, new child: Node)
      requires old(TreeShaped()) && NewChild(n, name, child)
      ensures TreeShaped()
    {
      hide HasParent;
      assert root in at && at[root] == [];
      forall m, k | m in at && k in m.children
        ensures m.children[k] in at && at[m.children[k]] == at[m] + [k]
      {
        assert m in old(at);
        assert k in old(m.children) || (m == n && k == name);
      }
      forall m | m in at && m != root
        ensures HasParent(m)
      {
        ParentKept(n, name, child, m);
      }
    }

    twostate lemma ParentKept(new n: Node, new name: Name, new child: Node, new m: Node)
      requires old(TreeShaped()) && NewChild(n, name, child) && m in at && m != root
      ensures HasParent(m)
    {
      if m == child {
        assert at[m][|at[m]| - 1] == name && n.children[name] == m;
      } else {
        assert old(HasParent(m));
        var last := at[m][|at[m]| - 1];
        var p :| p in old(at) && last in old(p.children) && old(p.children)[last] == m;
        assert p in at && p.children[last] == m;
      }
    }

    // ----- walking -----

    twostate lemma TreeKept()
      requires old(TreeShaped()) && at == old(at)
      requires forall n | n in at :: n.children == old(n.children)
      ensures TreeShaped()
    {
      forall m | m in at && m != root
        ensures HasParent(m)
      {
        assert old(HasParent(m));
      }
    }

    twostate lemma RootKept(new l: Layer, new w: World)
      requires old(Valid()) && l in owned && at == old(at) && owned == old(owned) && seqNo == old(seqNo)
      requires forall n | n in at :: n.children == old(n.children) && n.layers == old(n.layers)
      requires forall k | k in owned && k != l :: k.resolved == old(k.resolved)
      requires l.Root(w) == old(l.Root(w))
      requires l.resolved == if old(l.resolved).Some? then old(l.resolved) else l.Root(w)
      requires old(l.resolved) == None && l.resolved.Some? ==>
                 l.fs.Some? && Core(l.resolved.value) == None && (l.ro ==> l.resolved.value.ReadOnly?)
      ensures Valid() && Nodes(w) == old(Nodes(w))
    {
      hide TreeShaped, Canonical;
      TreeKept();
      forall k | k in owned
        ensures Holds(k) && k.Root(w) == old(k.Root(w))
      {
        assert old(Holds(k));
      }
      SameNodes(w);
    }

    method RootOf(w: World, l: Layer) returns (r: Option<File<Node>>)
      requires Valid() && l in owned
      modifies l`resolved
      ensures Valid() && Nodes(w) == old(Nodes(w)) && Settles(owned, w) && r == l.Root(w) == old(l.Root(w))
    {
      hide TreeShaped, LayersOwned, Holds;
      l.AttachedOutside(w);
      r := l.GetRoot(w);
      RootKept(l, w);
    }

    lemma LayerIsOwned(w: World, n: Node, i: nat)
      requires Valid() && n in Nodes(w) && i < |n.layers|
      ensures n in at && |Nodes(w)[n].layers| == |n.layers| && n.layers[i] in owned
      ensures Nodes(w)[n].layers[i] == n.layers[i].View(w)
    {
    }

    lemma NodeView(w: World, n: Node)
      requires Valid() && n in Nodes(w)
      ensures n in at && Nodes(w)[n].children == n.children && |Nodes(w)[n].layers| == |n.layers|
      ensures Nodes(w)[n].hash == n.pathHash
    {
    }

    /** What a layer bound read-only serves is behind a read-only wrapper, and so is all that is walked
        to from there. */
    lemma ReadOnlyLayersGuard(w: World, rank: map<Node, nat>, n: Node, name: Name, path: seq<Name>)
      requires Valid() && Sound(SpaceOf(w, rank)) && n in at && n in Nodes(w) && name !in n.children
      requires BindGraph.Walk(w, SpaceOf(w, rank), Tree(n), name).Some?
      ensures |n.layers| == |Nodes(w)[n].layers|
      ensures var s := SpaceOf(w, rank);
              var k := BindGraph.Serving(w, s, n, name, 0);
              && k < |n.layers|
              && (n.layers[k].ro && BindGraph.WalkAll(w, s, BindGraph.Walk(w, s, Tree(n), name).value, path).Some? ==>
                    Guarded(BindGraph.WalkAll(w, s, BindGraph.Walk(w, s, Tree(n), name).value, path).value))
    {
      hide TreeShaped, Canonical, BindGraph.Walk, BindGraph.WalkAll, BindGraph.Serving, BindGraph.Hit, LayerState.Root;
      var s := SpaceOf(w, rank);
      NodeView(w, n);
      WalkStaysGuarded(w, s, Tree(n), name);
      var k := BindGraph.Serving(w, s, n, name, 0);
      LayerIsOwned(w, n, k);
      n.layers[k].AttachedOutside(w);
      assert Holds(n.layers[k]);
      RootIfResolved(n.layers[k], w);
      var f := BindGraph.Walk(w, s, Tree(n), name).value;
      if n.layers[k].ro && BindGraph.WalkAll(w, s, f, path).Some? {
        PathStaysGuarded(w, s, f, path);
      }
    }

    static lemma RootIfResolved(l: Layer, w: World)
      ensures l.resolved.Some? ==> l.Root(w) == l.resolved
    {
    }

    /** Walk by one name: children before layers, and the first layer that has it. */
    method Walk(w: World, ghost rank: map<Node, nat>, f: File<Node>, name: Name) returns (r: Option<File<Node>>)
      requires Valid() && Sound(SpaceOf(w, rank)) && Within(f, Nodes(w))
      modifies owned`resolved
      ensures Valid() && Nodes(w) == old(Nodes(w)) && Settles(owned, w)
      ensures r == BindGraph.Walk(w, SpaceOf(w, rank), f, name)
      decreases Height(f, rank), 0, f
    {
      hide TreeShaped, LayersOwned, Holds, LayerState.Root, Nodes, Closed, BindGraph.Hit, BindGraph.Serving;
      match f {
        case Base(id) =>
          var c := w.walk(id, name);
          return if c.Some? then Some(Base(c.value)) else None;
        case Real(inner, dev) =>
          var c := Walk(w, rank, inner, name);
          return if c.Some? then Some(Real(c.value, dev)) else None;
        case ReadOnly(inner) =>
          var c := Walk(w, rank, inner, name);
          return if c.Some? then Some(WrapReadOnly(c.value)) else None;
        case Tree(n) =>
          r := WalkTree(w, rank, n, name);
      }
    }

    method WalkTree(w: World, ghost rank: map<Node, nat>, n: Node, name: Name) returns (r: Option<File<Node>>)
      requires Valid() && Sound(SpaceOf(w, rank)) && n in Nodes(w)
      modifies owned`resolved
      ensures Valid() && Nodes(w) == old(Nodes(w)) && Settles(owned, w)
      ensures r == BindGraph.Walk(w, SpaceOf(w, rank), Tree(n), name)
      decreases rank[n], 1
    {
      hide TreeShaped, LayersOwned, Holds, LayerState.Root, Nodes, Ranked, Closed;
      NodeView(w, n);
      if name == DOTDOT {
        return None;
      }
      if name in n.children {
        return Some(Tree(n.children[name]));
      }
      ghost var s := SpaceOf(w, rank);
      var layers := n.layers;
      var i := 0;
      while i < |layers|
        invariant Valid() && Nodes(w) == s.nodes && Settles(owned, w) && n.layers == layers && 0 <= i <= |layers|
        invariant Serving(w, s, n, name, 0) == Serving(w, s, n, name, i)
      {
        LayerIsOwned(w, n, i);
        var l := layers[i];
        var root := RootOf(w, l);
        if root.Some? {
          RootRank(s, n, i);
          var got := Walk(w, rank, root.value, name);
          if got.Some? {
            return Some(Real(got.value, l.Dev()));
          }
        }
        i := i + 1;
      }
      return None;
    }

    static lemma RootRank(s: Space<Node>, n: Node, i: nat)
      requires Sound(s) && n in s.nodes && i < |s.nodes[n].layers| && s.nodes[n].layers[i].root.Some?
      ensures n in s.rank && Height(s.nodes[n].layers[i].root.value, s.rank) <= s.rank[n]
      ensures Within(s.nodes[n].layers[i].root.value, s.nodes)
    {
    }

    /** Element by element from a file, as walkAll does. */
    method WalkAll(w: World, ghost rank: map<Node, nat>, f: File<Node>, path: seq<Name>) returns (r: Option<File<Node>>)
      requires Valid() && Sound(SpaceOf(w, rank)) && Within(f, Nodes(w))
      modifies owned`resolved
      ensures Valid() && Nodes(w) == old(Nodes(w)) && Settles(owned, w)
      ensures r == BindGraph.WalkAll(w, SpaceOf(w, rank), f, path)
    {
      hide TreeShaped, LayersOwned, Holds, LayerState.Root, Nodes, Ranked, Closed, BindGraph.Walk;
      ghost var s := SpaceOf(w, rank);
      var cur := f;
      var i := 0;
      assert path[0..] == path;
      while i < |path|
        invariant 0 <= i <= |path| && Valid() && Nodes(w) == s.nodes && Settles(owned, w) && Within(cur, s.nodes)
        invariant BindGraph.WalkAll(w, s, f, path) == BindGraph.WalkAll(w, s, cur, path[i..])
      {
        assert path[i..][0] == path[i] && path[i..][1..] == path[i + 1..];
        var next := Walk(w, rank, cur, path[i]);
        if next == None {
          return None;
        }
        cur := next.value;
        i := i + 1;
      }
      return Some(cur);
    }

    // ----- listing -----

    method Qid(w: World, f: File<Node>) returns (q: Qid)
      requires Valid() && Within(f, Nodes(w))
      ensures q == QidOf(w, SpaceOf(w, map[]), f)
    {
      match f {
        case Base(id) => q := w.qid(id);
        case Real(inner, _) => q := Qid(w, inner);
        case ReadOnly(inner) => q := Qid(w, inner);
        case Tree(n) =>
          NodeView(w, n);
          q := Messages.Qid(QTDIR, 0, n.pathHash);
      }
    }

    /** Everything a directory file serves. */
    method ListFile(w: World, ghost rank: map<Node, nat>, f: File<Node>) returns (r: Option<seq<Stat>>)
      requires Valid() && Sound(SpaceOf(w, rank)) && Within(f, Nodes(w))
      modifies owned`resolved
      ensures Valid() && Nodes(w) == old(Nodes(w)) && Settles(owned, w)
      ensures r == List(w, SpaceOf(w, rank), f)
      decreases Height(f, rank), 0, f
    {
      hide TreeShaped, LayersOwned, Holds, LayerState.Root, Nodes, Closed, LayerList, Merged, AllFail;
      match f {
        case Base(id) => r := w.list(id);
        case ReadOnly(inner) => r := ListFile(w, rank, inner);
        case Real(inner, dev) =>
          r := ListFile(w, rank, inner);
          var q := Qid(w, inner);
          SameQid(w, SpaceOf(w, map[]), SpaceOf(w, rank), inner);
          if r.Some? && IsDir(q) {
            r := Some(AllStampedWith(r.value, dev));
          }
        case Tree(n) =>
          r := ListLocalDir(w, rank, n);
      }
    }

    static lemma SameQid(w: World, s: Space<Node>, t: Space<Node>, f: File<Node>)
      requires s.nodes == t.nodes && Within(f, s.nodes)
      ensures QidOf(w, s, f) == QidOf(w, t, f)
    {
      match f {
        case Base(_) =>
        case Real(inner, _) => SameQid(w, s, t, inner);
        case ReadOnly(inner) => SameQid(w, s, t, inner);
        case Tree(_) =>
      }
    }

    /** One layer's entries, read through the directory buffer and stamped with its dev. */
    method ListLayer(w: World, ghost rank: map<Node, nat>, n: Node, i: nat) returns (r: Option<seq<Stat>>)
      requires Valid() && Sound(SpaceOf(w, rank)) && n in Nodes(w) && i < |Nodes(w)[n].layers| && i < |n.layers|
      modifies owned`resolved
      ensures Valid() && Nodes(w) == old(Nodes(w)) && Settles(owned, w)
      ensures r == LayerList(w, SpaceOf(w, rank), n, i)
      decreases rank[n], 1, 0
    {
      hide TreeShaped, LayersOwned, Holds, LayerState.Root, Nodes, Ranked, Closed, StatFits, StatBlob;
      ghost var s := SpaceOf(w, rank);
      LayerIsOwned(w, n, i);
      var l := n.layers[i];
      var root := RootOf(w, l);
      if root == None {
        return None;
      }
      RootRank(s, n, i);
      var es := ListFile(w, rank, root.value);
      if es == None {
        return None;
      }
      r := None;
      if AllFit(es.value, w.unix) {
        r := ReadDirEntries(es.value, w.unix);
      }
      if r.Some? {
        r := Some(AllStampedWith(r.value, l.Dev()));
      }
    }

    /** The union listing: tree children in name order, then each layer's entries whose name has
        not been seen, skipping layers that fail unless every one does and there is nothing else. */
    method ListLocalDir(w: World, ghost rank: map<Node, nat>, n: Node) returns (r: Option<seq<Stat>>)
      requires Valid() && Sound(SpaceOf(w, rank)) && n in Nodes(w)
      modifies owned`resolved
      ensures Valid() && Nodes(w) == old(Nodes(w)) && Settles(owned, w)
      ensures r == List(w, SpaceOf(w, rank), Tree(n))
      decreases rank[n], 2
    {
      hide TreeShaped, LayersOwned, Holds, LayerState.Root, Nodes, Ranked, Closed, LayerList, AddNew, Merged, Sound, Sorted,
           ChildEntries, Listed, List, AllFail, AllSmall, Small, TreeStat, Height, Within, IsPrefix, Views, QidOf,
           StatOf, BindGraph.Walk, Serving, Hit, FirstFail, Layer.Root;
      ghost var s := SpaceOf(w, rank);
      NodeView(w, n);
      var layers, children := n.layers, n.children;
      var entries, seen := ListChildren(w, rank, n);
      MergedFrom(w, s, n, 0);
      var failed := 0;
      NoneFailed(w, s, n);
      var k := 0;
      while k < |layers|
        invariant Valid() && Nodes(w) == s.nodes && Settles(owned, w) && n.layers == layers && 0 <= k <= |layers|
        invariant entries == Merged(w, s, n, k)
        invariant forall x :: x in seen <==> Listed(x, entries)
        invariant 0 <= failed <= k
        invariant failed == k <==> FirstFail(w, s, n, k)
      {
        OneMoreFails(w, s, n, k);
        var listed;
        listed, entries, seen := MergeLayer(w, rank, n, k, entries, seen);
        if !listed {
          failed := failed + 1;
        }
        k := k + 1;
      }
      assert |children| == 0 <==> children == map[];
      TreeListing(w, s, n);
      if failed > 0 && failed == |layers| && |children| == 0 {
        return None;
      }
      return Some(entries);
    }

    method MergeLayer(w: World, ghost rank: map<Node, nat>, n: Node, k: nat, before: seq<Stat>, seenBefore: set<Name>)
      returns (listed: bool, entries: seq<Stat>, seen: set<Name>)
      requires Valid() && Sound(SpaceOf(w, rank)) && n in Nodes(w) && k < |Nodes(w)[n].layers| && k < |n.layers|
      requires before == Merged(w, SpaceOf(w, rank), n, k) && forall x :: x in seenBefore <==> Listed(x, before)
      modifies owned`resolved
      ensures Valid() && Nodes(w) == old(Nodes(w)) && Settles(owned, w)
      ensures listed <==> LayerList(w, SpaceOf(w, rank), n, k).Some?
      ensures entries == Merged(w, SpaceOf(w, rank), n, k + 1) && forall x :: x in seen <==> Listed(x, entries)
      decreases rank[n], 1, 1
    {
      hide TreeShaped, LayersOwned, Holds, LayerState.Root, Nodes, Ranked, Closed, LayerList, AddNew, Merged, Listed;
      MergedFrom(w, SpaceOf(w, rank), n, k);
      var es := ListLayer(w, rank, n, k);
      if es == None {
        return false, before, seenBefore;
      }
      entries, seen := MergeNew(before, seenBefore, es.value);
      listed := true;
    }

    static lemma MergedFrom(w: World, s: Space<Node>, n: Node, k: nat)
      requires Sound(s) && n in s.nodes && k <= |s.nodes[n].layers|
      ensures Merged(w, s, n, 0) == ChildEntries(s, n, Sorted(s.nodes[n].children.Keys))
      ensures k < |s.nodes[n].layers| ==>
                Merged(w, s, n, k + 1) == match LayerList(w, s, n, k)
                                          case None => Merged(w, s, n, k)
                                          case Some(es) => AddNew(Merged(w, s, n, k), es)
    {
      hide LayerList, AddNew, Sorted, ChildEntries;
    }

    static lemma TreeListing(w: World, s: Space<Node>, n: Node)
      requires Sound(s) && n in s.nodes
      ensures List(w, s, Tree(n))
           == if s.nodes[n].children == map[] && s.nodes[n].layers != []
                 && FirstFail(w, s, n, |s.nodes[n].layers|) then None
              else Some(Merged(w, s, n, |s.nodes[n].layers|))
    {
      hide LayerList, Merged;
      assert AllFail(w, s, n) <==> FirstFail(w, s, n, |s.nodes[n].layers|);
      var r := List(w, s, Tree(n));
    }

    static lemma NoneFailed(w: World, s: Space<Node>, n: Node)
      requires Sound(s) && n in s.nodes
      ensures FirstFail(w, s, n, 0)
    {
    }

    static lemma OneMoreFails(w: World, s: Space<Node>, n: Node, k: nat)
      requires Sound(s) && n in s.nodes && k < |s.nodes[n].layers|
      ensures FirstFail(w, s, n, k + 1) <==> FirstFail(w, s, n, k) && LayerList(w, s, n, k) == None
    {
      hide LayerList;
    }

    static ghost predicate FirstFail(w: World, s: Space<Node>, n: Node, k: nat)
      requires Sound(s) && n in s.nodes && k <= |s.nodes[n].layers|
    {
      forall i | 0 <= i < k :: LayerList(w, s, n, i) == None
    }

    method ListChildren(w: World, ghost rank: map<Node, nat>, n: Node) returns (entries: seq<Stat>, seen: set<Name>)
      requires Valid() && Sound(SpaceOf(w, rank)) && n in Nodes(w)
      ensures entries == ChildEntries(SpaceOf(w, rank), n, Sorted(Nodes(w)[n].children.Keys))
      ensures forall x :: x in seen <==> Listed(x, entries)
    {
      hide TreeShaped, LayersOwned, Holds, LayerState.Root, Nodes, Ranked, Sorted, Listed, ChildEntries;
      NodeView(w, n);
      ghost var s := SpaceOf(w, rank);
      var names := SortStrings(n.children.Keys);
      entries, seen := [], {};
      ListedOneMore([], TreeStat(s, n, []));
      var i := 0;
      while i < |names|
        invariant 0 <= i <= |names| == |entries| + |names| - i
        invariant forall j :: 0 <= j < i ==>
                    entries[j] == TreeStat(s, s.nodes[n].children[names[j]], names[j])
        invariant forall x :: x in seen <==> Listed(x, entries)
      {
        assert names[i] in n.children;
        var child := n.children[names[i]];
        ChildWithin(s, n, names[i]);
        NodeView(w, child);
        var e := Stat(0, 0, Messages.Qid(QTDIR, 0, child.pathHash), TREE_MODE, 0, 0, 0, names[i],
                      user, user, user, [], 0, 0, 0);
        ListedOneMore(entries, e);
        entries := entries + [e];
        seen := seen + {names[i]};
        i := i + 1;
      }
    }

    static lemma ListedOneMore(entries: seq<Stat>, e: Stat)
      ensures forall x :: !Listed(x, [])
      ensures forall x :: Listed(x, entries + [e]) <==> Listed(x, entries) || x == e.name
    {
      forall x
        ensures Listed(x, entries + [e]) <==> Listed(x, entries) || x == e.name
      {
        if Listed(x, entries) {
          var i :| 0 <= i < |entries| && entries[i].name == x;
          assert (entries + [e])[i].name == x;
        }
        assert (entries + [e])[|entries|] == e;
      }
    }

    static method MergeNew(before: seq<Stat>, seenBefore: set<Name>, es: seq<Stat>)
      returns (entries: seq<Stat>, seen: set<Name>)
      requires forall x :: x in seenBefore <==> Listed(x, before)
      ensures entries == AddNew(before, es)
      ensures forall x :: x in seen <==> Listed(x, entries)
    {
      entries, seen := before, seenBefore;
      var j := 0;
      assert es[0..] == es;
      while j < |es|
        invariant 0 <= j <= |es| && AddNew(before, es) == AddNew(entries, es[j..])
        invariant forall x :: x in seen <==> Listed(x, entries)
      {
        assert es[j..][0] == es[j] && es[j..][1..] == es[j + 1..];
        if es[j].name !in seen {
          ListedOneMore(entries, es[j]);
          seen := seen + {es[j].name};
          entries := entries + [es[j]];
        }
        j := j + 1;
      }
    }

    // ----- resolving -----

    method StatFile(w: World, ghost rank: map<Node, nat>, f: File<Node>) returns (st: Option<Stat>)
      requires Valid() && Within(f, Nodes(w))
      ensures st == StatOf(w, SpaceOf(w, rank), f)
    {
      match f {
        case Base(id) => st := w.stat(id);
        case Real(inner, dev) =>
          st := StatFile(w, rank, inner);
          st := if st.Some? then Some(StampedWith(st.value, dev)) else None;
        case ReadOnly(inner) =>
          st := StatFile(w, rank, inner);
          st := if st.Some? then Some(st.value.(mode := WithoutWrite(st.value.mode))) else None;
        case Tree(n) =>
          NodeView(w, n);
          st := Some(Stat(0, 0, Messages.Qid(QTDIR, 0, n.pathHash), TREE_MODE, 0, 0, 0, [SLASH],
                          user, user, user, [], 0, 0, 0));
      }
    }

    /** Down the explicit tree, then the first layer with the next element serves all the rest. */
    method Resolve(w: World, ghost rank: map<Node, nat>, path: seq<Name>) returns (r: Option<Resolution>)
      requires Valid() && Sound(SpaceOf(w, rank)) && root in Nodes(w)
      modifies owned`resolved
      ensures Valid() && Nodes(w) == old(Nodes(w)) && Settles(owned, w)
      ensures r == ResolveFrom(w, SpaceOf(w, rank), root, path, 0)
    {
      hide TreeShaped, LayersOwned, Holds, LayerState.Root, Nodes, Ranked;
      ghost var s := SpaceOf(w, rank);
      var n := root;
      var i := 0;
      while i < |path|
        invariant 0 <= i <= |path| && Valid() && Nodes(w) == s.nodes && Settles(owned, w) && n in s.nodes
        invariant ResolveFrom(w, s, root, path, 0) == ResolveFrom(w, s, n, path, i)
      {
        NodeView(w, n);
        if path[i] == DOTDOT {
          return None;
        }
        if path[i] !in n.children {
          r := ResolveInLayers(w, rank, n, path, i);
          return;
        }
        n := n.children[path[i]];
        i := i + 1;
      }
      NodeView(w, n);
      var first := |n.layers| > 0;
      if first {
        LayerIsOwned(w, n, 0);
      }
      return Some(Resolution(if first then BindPoint else TreeOnly, path, [], [], -1, |n.layers|, 0,
                             first && n.layers[0].ro));
    }

    method ServingDev(w: World, ghost rank: map<Node, nat>, l: Layer, f: File<Node>) returns (dev: uint32)
      requires Valid() && Within(f, Nodes(w))
      ensures dev == ReportedDev(w, SpaceOf(w, rank), l.View(w), f)
    {
      hide TreeShaped, LayersOwned, Holds, Layer.Root, Nodes, StatOf;
      dev := l.Dev();
      if dev == 0 {
        var st := StatFile(w, rank, f);
        dev := if st.Some? then st.value.dev else 0;
      }
    }

    method ResolveInLayers(w: World, ghost rank: map<Node, nat>, n: Node, path: seq<Name>, i: nat)
      returns (r: Option<Resolution>)
      requires Valid() && Sound(SpaceOf(w, rank)) && n in Nodes(w) && i < |path|
      requires path[i] != DOTDOT && path[i] !in Nodes(w)[n].children
      modifies owned`resolved
      ensures Valid() && Nodes(w) == old(Nodes(w)) && Settles(owned, w)
      ensures r == ResolveFrom(w, SpaceOf(w, rank), n, path, i)
    {
      hide TreeShaped, LayersOwned, Holds, Layer.Root, Nodes, Ranked, Closed, BindGraph.Walk, BindGraph.WalkAll, StatOf;
      ghost var s := SpaceOf(w, rank);
      NodeView(w, n);
      var layers := n.layers;
      var k := 0;
      while k < |layers|
        invariant 0 <= k <= |layers| && Valid() && Nodes(w) == s.nodes && Settles(owned, w) && n.layers == layers
        invariant Serving(w, s, n, path[i], 0) == Serving(w, s, n, path[i], k)
      {
        LayerIsOwned(w, n, k);
        var l := layers[k];
        var top := RootOf(w, l);
        if top.Some? {
          RootRank(s, n, k);
          var got := Walk(w, rank, top.value, path[i]);
          if got.Some? {
            var f := WalkAll(w, rank, got.value, path[i + 1..]);
            if f == None {
              return None;
            }
            LayerIsOwned(w, n, k);
            var dev := ServingDev(w, rank, l, f.value);
            return Some(Resolution(InLayer, path[..i], path[i..], l.spec, k, |layers|, dev, l.ro));
          }
        }
        k := k + 1;
      }
      return None;
    }

    // ----- binding -----

    /** New layers went in at n, and nothing else happened. */
    twostate predicate AddedAt(new n: Node, new newLayers: seq<Layer>, new disp: Disposition)
      reads this, at.Keys, owned
    {
      && n in at && at == old(at) && seqNo == old(seqNo) && owned == old(owned)
      && (forall l | l in newLayers :: l in owned)
      && (forall m | m in at :: m.children == old(m.children) && (m != n ==> m.layers == old(m.layers)))
      && n.layers == Spliced(old(n.layers), newLayers, disp)
      && (forall l | l in owned :: l.resolved == old(l.resolved))
    }

    twostate lemma LayersAdded(new n: Node, new newLayers: seq<Layer>, new disp: Disposition)
      requires old(Valid()) && AddedAt(n, newLayers, disp) && Canonical(at[n])
      ensures Valid()
    {
      hide Canonical, TreeShaped;
      TreeKept();
      forall l | l in owned
        ensures Holds(l)
      {
        assert old(Holds(l));
      }
      assert LayersOwned() by {
        hide Holds;
        assert forall l | l in n.layers :: l in old(n.layers) || l in newLayers;
      }
    }

    static lemma ViewsSpliced(have: seq<Layer>, more: seq<Layer>, disp: Disposition, w: World)
      ensures Views(Spliced(have, more, disp), w) == Spliced(Views(have, w), Views(more, w), disp)
    {
      hide Views;
    }

    twostate lemma NodesAfterAdding(new n: Node, new newLayers: seq<Layer>, new disp: Disposition, new w: World)
      requires old(Valid()) && AddedAt(n, newLayers, disp) && Valid()
      ensures n in old(Nodes(w)) && Nodes(w) == Bound(old(Nodes(w)), n, Views(newLayers, w), disp)
    {
      hide TreeShaped, Holds, Canonical, Views, Spliced, WalkBase;
      forall m | m in at
        ensures Views(old(m.layers), w) == old(Views(m.layers, w))
      {
        ViewsKept(old(m.layers), w);
      }
      ViewsSpliced(old(n.layers), newLayers, disp, w);
    }

    /** Layers nothing refers to yet, put in at the node of a path. */
    method Graft(path: seq<Name>, newLayers: seq<Layer>, disp: Option<Disposition>) returns (ok: bool, ghost n: Node)
      requires Valid() && Canonical(path) && forall l | l in newLayers :: l in owned
      modifies this`at, at.Keys
      ensures Valid() && n in at && at[n] == path && ok == disp.Some?
      ensures fresh(at.Keys - old(at.Keys)) && Branches() && PutAt(n, newLayers, disp)
      ensures forall q :: HasPath(q) <==> old(HasPath(q)) || IsPrefix(q, path)
      ensures forall m | m in old(at) :: m in at && at[m] == old(at)[m]
      ensures ok ==> forall w :: BoundAt(old(Nodes(w)), Nodes(w), n, Views(newLayers, w), disp.value)
      ensures !ok ==> forall w :: Grew(old(Nodes(w)), Nodes(w))
    {
      hide TreeShaped, LayersOwned, Holds, LayerState.Root, Nodes, Grew, Bound, BoundAt, Spliced;
      var d := EnsureNode(path);
      n := d;
      forall w
        ensures Grew(old(Nodes(w)), Nodes(w))
      {
        ExtendsIsGrew(w);
      }
      label grown:
      assert forall w :: n in Nodes(w) by { InNodes(n); }
      ok := d.AddLayers(newLayers, disp);
      if ok {
        LayersAdded@grown(n, newLayers, disp.value);
        forall w
          ensures BoundAt(old(Nodes(w)), Nodes(w), n, Views(newLayers, w), disp.value)
        {
          NodesAfterAdding@grown(n, newLayers, disp.value, w);
          GrownThenBound(old(Nodes(w)), old@grown(Nodes(w)), Nodes(w), n, Views(newLayers, w), disp.value);
        }
      }
    }

    static lemma GrownThenBound(before: map<Node, NodeView<Node>>, grown: map<Node, NodeView<Node>>,
                                after: map<Node, NodeView<Node>>, n: Node, more: seq<LayerView<Node>>, disp: Disposition)
      requires Grew(before, grown) && n in grown && after == Bound(grown, n, more, disp)
      ensures BoundAt(before, after, n, more, disp)
    {
      assert LayersAt(before, n) == grown[n].layers;
      assert WithLayers(after, n, grown[n].layers) == grown;
    }

    lemma InNodes(n: Node)
      requires Valid() && n in at
      ensures forall w :: n in Nodes(w)
    {
    }

    /** Grafts a filesystem. The layer is numbered, whatever the disposition. */
    method BindFS(fs: nat, subpath: Name, dst: Name, disp: Option<Disposition>, spec: Name, ro: bool)
      returns (ok: bool, ghost n: Node, ghost l: Layer)
      requires Valid()
      modifies this`at, this`owned, this`seqNo, at.Keys
      ensures Valid() && n in at && at[n] == SplitPath(dst) && ok == disp.Some?
      ensures seqNo == old(seqNo) + 1 && owned == old(owned) + {l} && fresh(l)
      ensures fresh(at.Keys - old(at.Keys)) && Branches() && forall m | m in old(at) :: m in at && at[m] == old(at)[m]
      ensures forall q :: HasPath(q) <==> old(HasPath(q)) || IsPrefix(q, SplitPath(dst))
      ensures l.fs == Some(fs) && l.subpath == SplitPath(subpath) && l.spec == spec && l.ro == ro
      ensures l.number == seqNo && l.resolved == None
      ensures PutAt(n, [l], disp)
      ensures ok ==> forall w :: BoundAt(old(Nodes(w)), Nodes(w), n, [l.View(w)], disp.value)
    {
      hide TreeShaped, LayersOwned, Nodes, BoundAt, Spliced, SplitPath, Canonical;
      var layer := new Layer(Some(fs), SplitPath(subpath), None, spec, seqNo + 1, ro);
      l := layer;
      seqNo := seqNo + 1;
      owned := owned + {layer};
      MoreOwned([layer]);
      SplitPathIsCanonical(dst);
      ok, n := Graft(SplitPath(dst), [layer], disp);
      assert forall w :: Views([layer], w) == [l.View(w)];
    }

    /** New layers are accounted for before they are put in; the tree does not change. */
    twostate lemma MoreOwned(new ls: seq<Layer>)
      requires old(Valid()) && at == old(at) && seqNo >= old(seqNo)
      requires forall l | l in owned :: l in old(owned) || l in ls
      requires old(owned) <= owned
      requires forall m | m in at :: m.children == old(m.children) && m.layers == old(m.layers)
      requires forall l | l in old(owned) :: l.resolved == old(l.resolved)
      requires forall l | l in ls :: Holds(l)
      ensures Valid()
      ensures forall w :: Nodes(w) == old(Nodes(w))
    {
      hide Canonical, TreeShaped;
      TreeKept();
      forall l | l in old(owned)
        ensures Holds(l)
      {
        assert old(Holds(l));
      }
      forall w
        ensures Nodes(w) == old(Nodes(w))
      {
        forall n | n in at
          ensures n.View(w) == old(n.View(w))
        {
          assert Views(n.layers, w) == old(Views(n.layers, w));
        }
      }
    }

    /** Grafts what is now reachable at each source path, in order. The sources are walked before
        anything changes; each one that is found takes a number, even if a later one is not. */
    method BindPath(w: World, ghost rank: map<Node, nat>, srcs: seq<Name>, dst: Name, disp: Option<Disposition>, ro: bool)
      returns (ok: bool, ghost n: Node, ghost ls: seq<Layer>)
      requires Valid() && Sound(SpaceOf(w, rank))
      modifies this`at, this`owned, this`seqNo, at.Keys, owned`resolved
      ensures Valid()
      ensures ok <==> srcs != [] && disp.Some? && AllFound(w, old(SpaceOf(w, rank)), root, srcs)
      ensures !ok ==> Grew(old(Nodes(w)), Nodes(w))
      ensures !AllFound(w, old(SpaceOf(w, rank)), root, srcs) ==> Nodes(w) == old(Nodes(w)) && at == old(at)
      ensures root in old(Nodes(w)) && seqNo == old(seqNo) + FirstMissing(w, old(SpaceOf(w, rank)), root, srcs, 0)
      ensures Settles(old(owned), w)
      ensures srcs == [] || !AllFound(w, old(SpaceOf(w, rank)), root, srcs) ==>
                at == old(at) && owned == old(owned)
                && forall m | m in at :: m.children == old(m.children) && m.layers == old(m.layers)
      ensures srcs != [] && AllFound(w, old(SpaceOf(w, rank)), root, srcs) ==>
                && n in at && at[n] == SplitPath(dst) && Branches() && PutAt(n, ls, disp)
                && (forall q :: HasPath(q) <==> old(HasPath(q)) || IsPrefix(q, SplitPath(dst)))
                && fresh(ls) && AllCapture(ls, w, old(SpaceOf(w, rank)), srcs, old(seqNo), ro)
      ensures ok ==>
                && seqNo == old(seqNo) + |srcs| && owned == old(owned) + (set l | l in ls)
                && BoundAt(old(Nodes(w)), Nodes(w), n, Views(ls, w), disp.value)
      ensures forall m | m in old(at) :: m in at && at[m] == old(at)[m]
      ensures fresh(at.Keys - old(at.Keys)) && fresh(owned - old(owned))
    {
      hide TreeShaped, LayersOwned, Holds, Layer.Root, Settles, Views, Captures, FirstMissing, Nodes, BoundAt, Grew,
           Spliced, SplitPath, Canonical, Sound, BindGraph.WalkAll, AllCapture, AllFound, HasPath, IsPrefix;
      n, ls := root, [];
      GrewNot(w);
      NothingSettled(w);
      if srcs == [] {
        return false, n, ls;
      }
      var found, layers := Capture(w, rank, srcs, ro);
      if !found {
        return false, n, ls;
      }
      ok, n := GraftNew(layers, dst, disp);
      ls := layers;
    }

    /** Layers just made, grafted at a path. */
    method GraftNew(layers: seq<Layer>, dst: Name, disp: Option<Disposition>) returns (ok: bool, ghost n: Node)
      requires Valid() && forall l | l in layers :: Holds(l)
      modifies this`at, this`owned, at.Keys
      ensures Valid() && n in at && at[n] == SplitPath(dst) && ok == disp.Some?
      ensures owned == old(owned) + (set l | l in layers) && fresh(at.Keys - old(at.Keys))
      ensures Branches() && PutAt(n, layers, disp)
      ensures forall q :: HasPath(q) <==> old(HasPath(q)) || IsPrefix(q, SplitPath(dst))
      ensures forall m | m in old(at) :: m in at && at[m] == old(at)[m]
      ensures ok ==> forall w :: BoundAt(old(Nodes(w)), Nodes(w), n, Views(layers, w), disp.value)
      ensures !ok ==> forall w :: Grew(old(Nodes(w)), Nodes(w))
    {
      hide TreeShaped, LayersOwned, Holds, LayerState.Root, Nodes, BoundAt, Grew, Spliced, SplitPath, Canonical, HasPath,
           IsPrefix;
      SplitPathIsCanonical(dst);
      owned := owned + (set l | l in layers);
      MoreOwned(layers);
      ok, n := Graft(SplitPath(dst), layers, disp);
    }

    /** One layer for each source path, holding what a walk to it returns. */
    method Capture(w: World, ghost rank: map<Node, nat>, srcs: seq<Name>, ro: bool)
      returns (ok: bool, layers: seq<Layer>)
      requires Valid() && Sound(SpaceOf(w, rank))
      modifies this`seqNo, owned`resolved
      ensures Valid() && Nodes(w) == old(Nodes(w)) && Settles(owned, w)
      ensures ok <==> AllFound(w, old(SpaceOf(w, rank)), root, srcs)
      ensures seqNo == old(seqNo) + FirstMissing(w, old(SpaceOf(w, rank)), root, srcs, 0)
      ensures ok ==>
                && seqNo == old(seqNo) + |srcs| && fresh(layers)
                && AllCapture(layers, w, old(SpaceOf(w, rank)), srcs, old(seqNo), ro)
                && forall l | l in layers :: Holds(l)
    {
      hide TreeShaped, LayersOwned, Holds, LayerState.Root, Nodes, SplitPath, Ranked, Closed, BindGraph.WalkAll;
      ghost var s := SpaceOf(w, rank);
      layers := [];
      var i := 0;
      GrewNot(w);
      while i < |srcs|
        invariant 0 <= i <= |srcs| && |layers| == i && Valid() && Nodes(w) == s.nodes && Settles(owned, w)
        invariant seqNo == old(seqNo) + i && fresh(layers)
        invariant FirstMissing(w, s, root, srcs, 0) == FirstMissing(w, s, root, srcs, i)
        invariant forall j | 0 <= j < i ::
                    Captures(layers[j], BindGraph.WalkAll(w, s, Tree(root), SplitPath(srcs[j])), srcs[j],
                             old(seqNo) + j + 1, ro)
      {
        var l := CaptureOne(w, rank, srcs[i], ro);
        if l == None {
          return false, layers;
        }
        layers := layers + [l.value];
        i := i + 1;
      }
      forall l | l in layers
        ensures Holds(l)
      {
        var j :| 0 <= j < |layers| && layers[j] == l;
        NewHolds(w, s, l, SplitPath(srcs[j]), srcs[j], old(seqNo) + j + 1, ro);
      }
      ok := true;
    }

    method CaptureOne(w: World, ghost rank: map<Node, nat>, src: Name, ro: bool) returns (l: Option<Layer>)
      requires Valid() && Sound(SpaceOf(w, rank)) && root in Nodes(w)
      modifies this`seqNo, owned`resolved
      ensures Valid() && Nodes(w) == old(Nodes(w)) && Settles(owned, w)
      ensures var f := old(BindGraph.WalkAll(w, SpaceOf(w, rank), Tree(root), SplitPath(src)));
              if f == None then l == None && seqNo == old(seqNo)
              else l.Some? && fresh(l.value) && seqNo == old(seqNo) + 1 && Captures(l.value, f, src, seqNo, ro)
    {
      hide TreeShaped, LayersOwned, Holds, LayerState.Root, Nodes, SplitPath, Ranked, Closed, BindGraph.WalkAll;
      var f := WalkAll(w, rank, Tree(root), SplitPath(src));
      if f == None {
        return None;
      }
      var made := new Layer(None, [], if ro then Some(ReadOnly(f.value)) else f, src, seqNo + 1, ro);
      label making:
      seqNo := seqNo + 1;
      MoreOwned@making([]);
      return Some(made);
    }

    ghost predicate AllCapture(ls: seq<Layer>, w: World, s: Space<Node>, srcs: seq<Name>, before: nat, ro: bool)
      requires Sound(s) && root in s.nodes
      reads ls
    {
      && |ls| == |srcs|
      && forall i | 0 <= i < |ls| ::
           Captures(ls[i], BindGraph.WalkAll(w, s, Tree(root), SplitPath(srcs[i])), srcs[i], before + i + 1, ro)
    }

    /** A layer that holds a file reached by walking. */
    ghost predicate Captures(l: Layer, f: Option<File<Node>>, spec: Name, number: nat, ro: bool)
      reads l`resolved
    {
      && f.Some? && l.fs == None && l.subpath == [] && l.resolved == Some(if ro then ReadOnly(f.value) else f.value)
      && l.spec == spec && l.number == number && l.ro == ro
    }

    /** The first source from i on that is not found; their number if all are. */
    static ghost function FirstMissing(w: World, s: Space<Node>, root: Node, srcs: seq<Name>, i: nat): (k: nat)
      requires Sound(s) && root in s.nodes && i <= |srcs|
      ensures i <= k <= |srcs|
      decreases |srcs| - i
    {
      if i == |srcs| || BindGraph.WalkAll(w, s, Tree(root), SplitPath(srcs[i])) == None then i
      else FirstMissing(w, s, root, srcs, i + 1)
    }

    static ghost predicate AllFound(w: World, s: Space<Node>, root: Node, srcs: seq<Name>)
      requires Sound(s)
    {
      root in s.nodes && forall i | 0 <= i < |srcs| :: BindGraph.WalkAll(w, s, Tree(root), SplitPath(srcs[i])).Some?
    }

    lemma NewHolds(w: World, s: Space<Node>, l: Layer, path: seq<Name>, spec: Name, number: nat, ro: bool)
      requires Shaped() && Sound(s) && s.nodes == Nodes(w) && root in s.nodes && number <= seqNo
      requires Captures(l, BindGraph.WalkAll(w, s, Tree(root), path), spec, number, ro)
      ensures Holds(l)
    {
    }

    twostate lemma NothingSettled(new w: World)
      requires forall l | l in old(owned) :: l.resolved == old(l.resolved)
      ensures Settles(old(owned), w)
    {
    }

    lemma GrewNot(w: World)
      requires Valid()
      ensures root in at && root in Nodes(w) && Grew(Nodes(w), Nodes(w))
    {
    }

    // ----- unbinding -----

    /** The node at a path, without making one. */
    method FindNode(path: seq<Name>) returns (n: Option<Node>)
      requires Valid()
      ensures n.Some? <==> HasPath(path)
      ensures n.Some? ==> n.value in at && at[n.value] == path
    {
      hide LayersOwned, Holds;
      var cur := root;
      var i := 0;
      while i < |path|
        invariant 0 <= i <= |path| && cur in at && at[cur] == path[..i]
      {
        assert path[..i + 1] == path[..i] + [path[i]];
        if path[i] !in cur.children {
          if HasPath(path) {
            AncestorHere(path, i + 1);
            var m :| m in at && at[m] == path[..i + 1];
            PathIsTaken(cur, path[i], m);
          }
          return None;
        }
        cur := cur.children[path[i]];
        i := i + 1;
      }
      assert path[..i] == path;
      return Some(cur);
    }

    /** Every prefix of a node's path has its node. */
    lemma {:induction false} AncestorHere(path: seq<Name>, i: nat)
      requires TreeShaped() && HasPath(path) && i <= |path|
      ensures HasPath(path[..i])
      decreases |path| - i
    {
      if i < |path| {
        AncestorHere(path, i + 1);
        var m :| m in at && at[m] == path[..i + 1];
        assert m != root && HasParent(m);
        var p :| p in at && at[m][|at[m]| - 1] in p.children && p.children[at[m][|at[m]| - 1]] == m;
        assert (at[p] + [at[m][|at[m]| - 1]])[..|at[p]|] == path[..i + 1][..|at[p]|];
        assert at[p] == path[..i];
      } else {
        assert path[..i] == path;
      }
    }

    /** Clears what is bound at the path itself; it is an error if that is nothing. */
    method Unbind(path: Name) returns (ok: bool, ghost n: Node)
      requires Valid()
      modifies at.Keys`layers
      ensures Valid() && n in at && ok == (HasPath(SplitPath(path)) && at[n] == SplitPath(path) && old(n.layers) != [])
      ensures HasPath(SplitPath(path)) ==> at[n] == SplitPath(path)
      ensures n.layers == if ok then [] else old(n.layers)
      ensures forall m | m in at && m != n :: m.layers == old(m.layers)
      ensures ok ==> forall w :: n in old(Nodes(w)) && Nodes(w) == WithLayers(old(Nodes(w)), n, [])
    {
      hide TreeShaped, LayersOwned, Holds, LayerState.Root, Nodes, SplitPath, Canonical;
      RootIsHere();
      n := root;
      var found := FindNode(SplitPath(path));
      if found == None {
        return false, n;
      }
      n := found.value;
      if |found.value.layers| == 0 {
        return false, n;
      }
      CanonicalHere(n);
      found.value.layers := [];
      ok := true;
      LayersAdded(n, [], Replace);
      forall w
        ensures n in old(Nodes(w)) && Nodes(w) == WithLayers(old(Nodes(w)), n, [])
      {
        NodesAfterAdding(n, [], Replace, w);
      }
    }

    lemma CanonicalHere(n: Node)
      requires Valid() && n in at && n.layers != []
      ensures Canonical(at[n])
    {
    }
  }
}
