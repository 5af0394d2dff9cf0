/** Which bind point and which layer of it serve a path (ns/binds.go), against walking to it. */
module Resolving {
  import opened Bytes
  import opened Messages
  import opened Names
  import opened BindGraph

  datatype Place = InLayer | BindPoint | TreeOnly

  /** Resolution with its paths as element lists; `layer` is -1 when no one layer serves. */
  datatype Resolution = Resolution(
    place: Place, dst: seq<Name>, inner: seq<Name>, spec: Name, layer: int, layers: nat, dev: uint32, ro: bool)

  /** Down the explicit tree only. */
  function Descend<N>(s: Space<N>, n: N, path: seq<Name>): (r: Option<N>)
    requires Closed(s.nodes) && n in s.nodes
    ensures r.Some? ==> r.value in s.nodes
    decreases |path|
  {
    if path == [] then Some(n)
    else if path[0] in s.nodes[n].children then Descend(s, s.nodes[n].children[path[0]], path[1..])
    else None
  }

  function ReportedDev<N>(w: World, s: Space<N>, l: LayerView<N>, f: File<N>): uint32
    requires Within(f, s.nodes)
  {
    if l.dev != 0 then l.dev
    else match StatOf(w, s, f) case None => 0 case Some(st) => st.dev
  }

  /** The answer for the elements from i on, standing at node n. */
  function ResolveFrom<N>(w: World, s: Space<N>, n: N, path: seq<Name>, i: nat): Option<Resolution>
    requires Sound(s) && n in s.nodes && i <= |path|
    decreases |path| - i
  {
    var layers := s.nodes[n].layers;
    if i == |path| then
      Some(Resolution(if layers == [] then TreeOnly else BindPoint, path, [], [], -1, |layers|, 0,
                      layers != [] && layers[0].ro))
    else if path[i] == DOTDOT then None
    else if path[i] in s.nodes[n].children then ResolveFrom(w, s, s.nodes[n].children[path[i]], path, i + 1)
    else
      var k := Serving(w, s, n, path[i], 0);
      if k == |layers| then None
      else
        match WalkAll(w, s, Hit(w, s, n, k, path[i]).value, path[i + 1..])
        case None => None
        case Some(f) =>
          Some(Resolution(InLayer, path[..i], path[i..], layers[k].spec, k, |layers|,
                          ReportedDev(w, s, layers[k], f), layers[k].ro))
  }

  /** What a resolution claims, as a statement about the file a walk to the path returns: it is node
      `dst` of the tree; or, below the tree, the first layer of node `dst` that has the next
      element, and the file at `inner` in that layer, carrying the reported dev. */
  ghost predicate Denotes<N>(w: World, s: Space<N>, root: N, path: seq<Name>, res: Resolution, got: File<N>)
    requires Sound(s) && root in s.nodes && Within(got, s.nodes)
  {
    && Descend(s, root, res.dst).Some?
    && var n := Descend(s, root, res.dst).value;
       var layers := s.nodes[n].layers;
       && res.layers == |layers|
       && if res.place == InLayer then
            && path == res.dst + res.inner && res.inner != []
            && res.inner[0] !in s.nodes[n].children && res.inner[0] != DOTDOT
            && 0 <= res.layer < |layers|
            && (forall j: nat | j < res.layer :: Hit(w, s, n, j, res.inner[0]) == None)
            && var l := layers[res.layer];
               && l.root.Some? && res.spec == l.spec && res.ro == l.ro
               && WalkAll(w, s, l.root.value, res.inner).Some?
               && got == Real(WalkAll(w, s, l.root.value, res.inner).value, l.dev)
               && (StatOf(w, s, got).Some? ==> res.dev == StatOf(w, s, got).value.dev)
          else
            && res.dst == path && got == Tree(n) && res.layer == -1
            && (res.place == BindPoint <==> layers != [])
            && res.ro == (layers != [] && layers[0].ro)
  }

  /** Resolve succeeds exactly when walking the path element by element does, and names the file
      that walk returns. */
  lemma ResolveIsWalk<N>(w: World, s: Space<N>, root: N, path: seq<Name>)
    requires Sound(s) && root in s.nodes
    ensures ResolveFrom(w, s, root, path, 0).Some? <==> WalkAll(w, s, Tree(root), path).Some?
    ensures WalkAll(w, s, Tree(root), path).Some? ==>
              Denotes(w, s, root, path, ResolveFrom(w, s, root, path, 0).value, WalkAll(w, s, Tree(root), path).value)
  {
    assert path[0..] == path;
    ResolveFromIsWalk(w, s, root, root, path, 0);
  }

  lemma {:induction false} ResolveFromIsWalk<N>(w: World, s: Space<N>, root: N, n: N, path: seq<Name>, i: nat)
    requires Sound(s) && root in s.nodes && n in s.nodes && i <= |path|
    requires Descend(s, root, path[..i]) == Some(n)
    ensures ResolveFrom(w, s, n, path, i).Some? <==> WalkAll(w, s, Tree(n), path[i..]).Some?
    ensures WalkAll(w, s, Tree(n), path[i..]).Some? ==>
              Denotes(w, s, root, path, ResolveFrom(w, s, n, path, i).value, WalkAll(w, s, Tree(n), path[i..]).value)
    decreases |path| - i
  {
    hide Sound;
    if i == |path| {
      assert path[..i] == path;
    } else {
      assert path[i..][0] == path[i] && path[i..][1..] == path[i + 1..];
      if path[i] != DOTDOT {
        if path[i] in s.nodes[n].children {
          ChildWithin(s, n, path[i]);
          DescendOne(s, root, path, i);
          ResolveFromIsWalk(w, s, root, s.nodes[n].children[path[i]], path, i + 1);
        } else {
          LayerServes(w, s, root, n, path, i);
        }
      }
    }
  }

  lemma {:induction false} DescendOne<N>(s: Space<N>, n: N, path: seq<Name>, i: nat)
    requires Sound(s) && n in s.nodes && i < |path|
    requires Descend(s, n, path[..i]).Some?
    ensures var m := Descend(s, n, path[..i]).value;
            Descend(s, n, path[..i + 1])
            == if path[i] in s.nodes[m].children then Some(s.nodes[m].children[path[i]]) else None
    decreases i
  {
    if i > 0 {
      assert path[..i][0] == path[0] && path[..i][1..] == path[1..][..i - 1];
      assert path[..i + 1][0] == path[0] && path[..i + 1][1..] == path[1..][..i];
      DescendOne(s, s.nodes[n].children[path[0]], path[1..], i - 1);
    } else {
      assert path[..1][0] == path[0] && path[..1][1..] == [];
    }
  }

  /** Past the tree a walk stays inside one layer, so its stamp goes on the outside. */
  lemma {:induction false} RealWalk<N>(w: World, s: Space<N>, f: File<N>, dev: uint32, path: seq<Name>)
    requires Sound(s) && Within(f, s.nodes)
    ensures WalkAll(w, s, Real(f, dev), path)
         == match WalkAll(w, s, f, path) case None => None case Some(c) => Some(Real(c, dev))
    decreases |path|
  {
    hide Sound;
    if path != [] {
      var next := Walk(w, s, f, path[0]);
      if next.Some? {
        RealWalk(w, s, next.value, dev, path[1..]);
      }
    }
  }

  lemma LayerServes<N>(w: World, s: Space<N>, root: N, n: N, path: seq<Name>, i: nat)
    requires Sound(s) && root in s.nodes && n in s.nodes && i < |path|
    requires Descend(s, root, path[..i]) == Some(n)
    requires path[i] != DOTDOT && path[i] !in s.nodes[n].children
    ensures ResolveFrom(w, s, n, path, i).Some? <==> WalkAll(w, s, Tree(n), path[i..]).Some?
    ensures WalkAll(w, s, Tree(n), path[i..]).Some? ==>
              Denotes(w, s, root, path, ResolveFrom(w, s, n, path, i).value, WalkAll(w, s, Tree(n), path[i..]).value)
  {
    hide Sound, Serving;
    assert path[i..][0] == path[i] && path[i..][1..] == path[i + 1..] && path == path[..i] + path[i..];
    var k := Serving(w, s, n, path[i], 0);
    if k < |s.nodes[n].layers| {
      var l := s.nodes[n].layers[k];
      var f := Hit(w, s, n, k, path[i]).value;
      WithinLayer(s, n, k);
      assert Walk(w, s, Tree(n), path[i]) == Some(Real(f, l.dev));
      RealWalk(w, s, f, l.dev, path[i + 1..]);
      assert WalkAll(w, s, l.root.value, path[i..]) == WalkAll(w, s, f, path[i + 1..]);
    }
  }
}
