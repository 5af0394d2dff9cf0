/** What a cloned bind tree is to the original: an isomorphic tree over other nodes, on which every
    walk, listing and stat gives the corresponding answer (ns/clone.go). */
module Remap {
  import opened Bytes
  import opened Messages
  import opened Names
  import opened BindGraph
  import opened Resolving

  /** remapFile: a tree node is replaced by its copy, also under a read-only wrapper. A file that has
      left the tree is shared as it is. */
  function RemapFile<N>(f: File<N>, m: map<N, N>): File<N>
  {
    match f
    case Tree(n) => if n in m then Tree(m[n]) else f
    case ReadOnly(inner) => ReadOnly(RemapFile(inner, m))
    case Real(_, _) => f
    case Base(_) => f
  }

  /** The copy of a file: its tree node replaced wherever it is. */
  function Moved<N>(f: File<N>, m: map<N, N>): File<N>
  {
    match f
    case Tree(n) => if n in m then Tree(m[n]) else f
    case ReadOnly(inner) => ReadOnly(Moved(inner, m))
    case Real(inner, dev) => Real(Moved(inner, m), dev)
    case Base(_) => f
  }

  /** A tree node sits behind an nsFile that has left the tree: what binding a path reached through
      another path bind captures. */
  predicate Hides<N>(f: File<N>)
  {
    match f
    case Tree(_) => false
    case ReadOnly(inner) => Hides(inner)
    case Real(inner, _) => Core(inner).Some?
    case Base(_) => false
  }

  lemma {:induction false} HiddenCore<N>(f: File<N>)
    requires Hides(f)
    ensures Core(f).Some?
  {
    match f {
      case Real(_, _) =>
      case ReadOnly(inner) => HiddenCore(inner);
    }
  }

  predicate NoneHidden<N>(nodes: map<N, NodeView<N>>)
  {
    forall n | n in nodes :: forall i | 0 <= i < |nodes[n].layers| ::
      nodes[n].layers[i].root.Some? ==> !Hides(nodes[n].layers[i].root.value)
  }

  function RemapLayer<N>(l: LayerView<N>, m: map<N, N>): LayerView<N>
  {
    l.(root := match l.root case None => None case Some(f) => Some(RemapFile(f, m)))
  }

  function RemapLayers<N>(ls: seq<LayerView<N>>, m: map<N, N>): (r: seq<LayerView<N>>)
    ensures |r| == |ls|
  {
    seq(|ls|, i requires 0 <= i < |ls| => RemapLayer(ls[i], m))
  }

  predicate Injective<N>(m: map<N, N>)
  {
    forall a, b | a in m && b in m && m[a] == m[b] :: a == b
  }

  /** Node c is the copy of node n. */
  predicate CopyOf<N>(n: NodeView<N>, c: NodeView<N>, m: map<N, N>)
  {
    && c.hash == n.hash && c.layers == RemapLayers(n.layers, m)
    && c.children.Keys == n.children.Keys
    && forall k | k in n.children :: n.children[k] in m && c.children[k] == m[n.children[k]]
  }

  /** Two passes over the tree leave exactly this. */
  predicate Copied<N>(nodes: map<N, NodeView<N>>, m: map<N, N>, copy: map<N, NodeView<N>>)
  {
    && m.Keys == nodes.Keys && Injective(m) && copy.Keys == m.Values && m.Values !! m.Keys
    && forall n | n in nodes :: CopyOf(nodes[n], copy[m[n]], m)
  }

  /** remapFile finds the tree node of exactly the files that do not hide one. */
  lemma {:induction false} RemapMoves<N>(f: File<N>, m: map<N, N>)
    requires Core(f).Some? ==> Core(f).value in m
    requires m.Keys !! m.Values
    ensures RemapFile(f, m) == Moved(f, m) <==> !Hides(f)
    ensures Core(Moved(f, m)) == if Core(f).Some? then Some(m[Core(f).value]) else None
    ensures Core(RemapFile(f, m)).Some? && Core(RemapFile(f, m)).value in m.Keys <==> Hides(f)
    ensures Hides(f) ==> RemapFile(f, m) == f
  {
    match f {
      case Tree(n) =>
        assert m[n] in m.Values;
      case ReadOnly(inner) => RemapMoves(inner, m);
      case Real(inner, dev) =>
        MovedCore(inner, m);
        if Core(inner).Some? {
          assert m[Core(inner).value] in m.Values;
        }
      case Base(_) =>
    }
  }

  lemma {:induction false} MovedCore<N>(f: File<N>, m: map<N, N>)
    requires Core(f).Some? ==> Core(f).value in m
    ensures Core(Moved(f, m)) == if Core(f).Some? then Some(m[Core(f).value]) else None
    ensures Core(f) == None ==> Moved(f, m) == f
  {
    match f {
      case Tree(_) =>
      case ReadOnly(inner) => MovedCore(inner, m);
      case Real(inner, dev) => MovedCore(inner, m);
      case Base(_) =>
    }
  }

  /** The copy refers to its own nodes only, exactly when no layer of the original hides a node. */
  lemma CopyIsClosed<N>(nodes: map<N, NodeView<N>>, m: map<N, N>, copy: map<N, NodeView<N>>)
    requires Closed(nodes) && Copied(nodes, m, copy)
    ensures Closed(copy) <==> NoneHidden(nodes)
  {
    forall n, i | n in nodes && 0 <= i < |nodes[n].layers| && nodes[n].layers[i].root.Some?
      ensures Within(copy[m[n]].layers[i].root.value, copy) <==> !Hides(nodes[n].layers[i].root.value)
    {
      var f := nodes[n].layers[i].root.value;
      assert CopyOf(nodes[n], copy[m[n]], m);
      assert copy[m[n]].layers[i] == RemapLayer(nodes[n].layers[i], m);
      RemapMoves(f, m);
      if Core(f).Some? {
        assert m[Core(f).value] in m.Values;
      }
    }
    forall n, k | n in nodes && k in nodes[n].children
      ensures copy[m[n]].children[k] in copy
    {
      assert CopyOf(nodes[n], copy[m[n]], m);
      assert m[nodes[n].children[k]] in m.Values;
    }
    if NoneHidden(nodes) {
      forall c | c in copy
        ensures (forall k | k in copy[c].children :: copy[c].children[k] in copy)
        ensures forall i | 0 <= i < |copy[c].layers| ::
                  copy[c].layers[i].root.Some? ==> Within(copy[c].layers[i].root.value, copy)
      {
        var n :| n in nodes && m[n] == c;
      }
    }
  }

  // ----- every answer carries over -----

  function MovedAnswer<N>(r: Option<File<N>>, m: map<N, N>): Option<File<N>>
  {
    match r case None => None case Some(f) => Some(Moved(f, m))
  }

  /** Under m, each node of the one tree is to the other's as every file it leads to is. */
  ghost predicate Mirrored<N>(nodes: map<N, NodeView<N>>, m: map<N, N>, copy: map<N, NodeView<N>>)
  {
    && m.Keys == nodes.Keys
    && forall n | n in nodes ::
         && m[n] in copy && copy[m[n]].hash == nodes[n].hash
         && copy[m[n]].children.Keys == nodes[n].children.Keys
         && (forall k | k in nodes[n].children ::
               nodes[n].children[k] in m && copy[m[n]].children[k] == m[nodes[n].children[k]])
         && |copy[m[n]].layers| == |nodes[n].layers|
         && forall i | 0 <= i < |nodes[n].layers| ::
              copy[m[n]].layers[i] == nodes[n].layers[i].(root := MovedAnswer(nodes[n].layers[i].root, m))
  }

  /** s2 is a copy of s, each with ranks of its own. */
  ghost predicate CopySpace<N>(s: Space<N>, m: map<N, N>, s2: Space<N>)
  {
    Sound(s) && Sound(s2) && Mirrored(s.nodes, m, s2.nodes) && s2.user == s.user
  }

  /** A clone that hides nothing is a copy in this sense. */
  lemma CopyMirrors<N>(nodes: map<N, NodeView<N>>, m: map<N, N>, copy: map<N, NodeView<N>>)
    requires Closed(nodes) && Copied(nodes, m, copy) && NoneHidden(nodes)
    ensures Mirrored(nodes, m, copy)
  {
    forall n, i | n in nodes && 0 <= i < |nodes[n].layers|
      ensures m[n] in copy && |copy[m[n]].layers| == |nodes[n].layers|
      ensures copy[m[n]].layers[i] == nodes[n].layers[i].(root := MovedAnswer(nodes[n].layers[i].root, m))
    {
      assert m[n] in m.Values && CopyOf(nodes[n], copy[m[n]], m);
      assert copy[m[n]].layers[i] == RemapLayer(nodes[n].layers[i], m);
      if nodes[n].layers[i].root.Some? {
        RemapMoves(nodes[n].layers[i].root.value, m);
      }
    }
    forall n | n in nodes
      ensures m[n] in copy && CopyOf(nodes[n], copy[m[n]], m)
    {
      assert m[n] in m.Values;
    }
  }

  /** The copy of a ranked tree has ranks. */
  lemma CopyIsRanked<N>(s: Space<N>, m: map<N, N>, copy: map<N, NodeView<N>>) returns (s2: Space<N>)
    requires Sound(s) && Copied(s.nodes, m, copy) && NoneHidden(s.nodes)
    ensures s2.nodes == copy && CopySpace(s, m, s2)
  {
    CopyIsClosed(s.nodes, m, copy);
    CopyMirrors(s.nodes, m, copy);
    var rank := map c | c in m.Values :: s.rank[Original(m, c)];
    s2 := Space(copy, s.user, rank);
    hide Mirrored;
    MirrorIsRanked(s, m, copy, rank);
  }

  lemma MirrorIsRanked<N>(s: Space<N>, m: map<N, N>, copy: map<N, NodeView<N>>, rank: map<N, nat>)
    requires Sound(s) && Mirrored(s.nodes, m, copy) && Injective(m) && copy.Keys == m.Values == rank.Keys
    requires forall c | c in rank :: rank[c] == s.rank[Original(m, c)]
    ensures Ranked(copy, rank)
  {
    forall n | n in s.nodes
      ensures m[n] in rank && rank[m[n]] == s.rank[n]
    {
      assert m[n] in m.Values;
    }
    forall c, i | c in copy && 0 <= i < |copy[c].layers| && copy[c].layers[i].root.Some?
      ensures Height(copy[c].layers[i].root.value, rank) <= rank[c]
    {
      var n := Original(m, c);
      if s.nodes[n].layers[i].root.Some? {
        MovedCore(s.nodes[n].layers[i].root.value, m);
      }
    }
  }

  ghost function Original<N>(m: map<N, N>, c: N): (n: N)
    requires c in m.Values
    ensures n in m && m[n] == c
  {
    var n :| n in m && m[n] == c;
    n
  }

  lemma LayerMoved<N>(s: Space<N>, m: map<N, N>, s2: Space<N>, n: N, i: nat)
    requires CopySpace(s, m, s2) && n in s.nodes && i < |s.nodes[n].layers|
    ensures n in m && m[n] in s2.nodes && |s2.nodes[m[n]].layers| == |s.nodes[n].layers|
    ensures s2.nodes[m[n]].layers[i] == s.nodes[n].layers[i].(root := MovedAnswer(s.nodes[n].layers[i].root, m))
    ensures s.nodes[n].layers[i].root.Some? ==> Within(s.nodes[n].layers[i].root.value, s.nodes)
  {
  }

  lemma NodeMoved<N>(s: Space<N>, m: map<N, N>, s2: Space<N>, n: N)
    requires CopySpace(s, m, s2) && n in s.nodes
    ensures n in m && m[n] in s2.nodes && s2.nodes[m[n]].hash == s.nodes[n].hash
    ensures |s2.nodes[m[n]].layers| == |s.nodes[n].layers|
    ensures s2.nodes[m[n]].children.Keys == s.nodes[n].children.Keys
    ensures forall k | k in s.nodes[n].children ::
              s.nodes[n].children[k] in s.nodes && s.nodes[n].children[k] in m
              && s2.nodes[m[n]].children[k] == m[s.nodes[n].children[k]]
  {
  }

  lemma MovedWithin<N>(s: Space<N>, m: map<N, N>, s2: Space<N>, f: File<N>)
    requires CopySpace(s, m, s2) && Within(f, s.nodes)
    ensures Within(Moved(f, m), s2.nodes)
  {
    MovedCore(f, m);
  }

  lemma {:induction false} WalkMoves<N>(w: World, s: Space<N>, m: map<N, N>, s2: Space<N>, f: File<N>, name: Name)
    requires CopySpace(s, m, s2) && Within(f, s.nodes)
    ensures Within(Moved(f, m), s2.nodes)
    ensures Walk(w, s2, Moved(f, m), name) == MovedAnswer(Walk(w, s, f, name), m)
    decreases Height(f, s.rank), 0, f
  {
    hide CopySpace;
    assert Sound(s) && Sound(s2) by { Sounds(s, m, s2); }
    MovedWithin(s, m, s2, f);
    match f {
      case Base(_) =>
      case Real(inner, _) => WalkMoves(w, s, m, s2, inner, name);
      case ReadOnly(inner) => WalkMoves(w, s, m, s2, inner, name);
      case Tree(n) =>
        NodeMoved(s, m, s2, n);
        ServingMoves(w, s, m, s2, n, name, 0);
        var k := Serving(w, s, n, name, 0);
        if k < |s.nodes[n].layers| {
          HitMoves(w, s, m, s2, n, k, name);
        }
        TreeWalkMoves(w, s, m, s2, n, name);
    }
  }

  lemma TreeWalkMoves<N>(w: World, s: Space<N>, m: map<N, N>, s2: Space<N>, n: N, name: Name)
    requires CopySpace(s, m, s2) && n in s.nodes && n in m && m[n] in s2.nodes
    requires |s2.nodes[m[n]].layers| == |s.nodes[n].layers|
    requires Serving(w, s2, m[n], name, 0) == Serving(w, s, n, name, 0)
    requires var k := Serving(w, s, n, name, 0);
             k < |s.nodes[n].layers| ==> Hit(w, s2, m[n], k, name) == MovedAnswer(Hit(w, s, n, k, name), m)
    ensures Walk(w, s2, Tree(m[n]), name) == MovedAnswer(Walk(w, s, Tree(n), name), m)
  {
    hide CopySpace, Serving, Hit;
    assert Sound(s) && Sound(s2) by { Sounds(s, m, s2); }
    NodeMoved(s, m, s2, n);
    var k := Serving(w, s, n, name, 0);
    if k < |s.nodes[n].layers| {
      LayerMoved(s, m, s2, n, k);
    }
  }

  lemma Sounds<N>(s: Space<N>, m: map<N, N>, s2: Space<N>)
    requires CopySpace(s, m, s2)
    ensures Sound(s) && Sound(s2) && s2.user == s.user
  {
  }

  lemma {:induction false} HitMoves<N>(
      w: World, s: Space<N>, m: map<N, N>, s2: Space<N>, n: N, i: nat, name: Name)
    requires CopySpace(s, m, s2) && n in s.nodes && i < |s.nodes[n].layers|
    ensures m[n] in s2.nodes && i < |s2.nodes[m[n]].layers|
    ensures Hit(w, s2, m[n], i, name) == MovedAnswer(Hit(w, s, n, i, name), m)
    decreases s.rank[n], 1, 0
  {
    LayerMoved(s, m, s2, n, i);
    if s.nodes[n].layers[i].root.Some? {
      WalkMoves(w, s, m, s2, s.nodes[n].layers[i].root.value, name);
    }
  }

  lemma {:induction false} ServingMoves<N>(
      w: World, s: Space<N>, m: map<N, N>, s2: Space<N>, n: N, name: Name, i: nat)
    requires CopySpace(s, m, s2) && n in s.nodes && i <= |s.nodes[n].layers|
    ensures m[n] in s2.nodes && i <= |s2.nodes[m[n]].layers|
    ensures Serving(w, s2, m[n], name, i) == Serving(w, s, n, name, i)
    decreases s.rank[n], 1, |s.nodes[n].layers| - i + 1
  {
    NodeMoved(s, m, s2, n);
    if i < |s.nodes[n].layers| {
      HitMoves(w, s, m, s2, n, i, name);
      ServingMoves(w, s, m, s2, n, name, i + 1);
    }
  }

  /** Whole walks, and the stats of what they reach. */
  lemma {:induction false} WalkAllMoves<N>(
      w: World, s: Space<N>, m: map<N, N>, s2: Space<N>, f: File<N>, path: seq<Name>)
    requires CopySpace(s, m, s2) && Within(f, s.nodes)
    ensures Within(Moved(f, m), s2.nodes)
    ensures WalkAll(w, s2, Moved(f, m), path) == MovedAnswer(WalkAll(w, s, f, path), m)
    decreases |path|
  {
    MovedWithin(s, m, s2, f);
    if path != [] {
      WalkMoves(w, s, m, s2, f, path[0]);
      var next := Walk(w, s, f, path[0]);
      if next.Some? {
        WalkAllMoves(w, s, m, s2, next.value, path[1..]);
      }
    }
  }

  lemma {:induction false} StatMoves<N>(w: World, s: Space<N>, m: map<N, N>, s2: Space<N>, f: File<N>)
    requires CopySpace(s, m, s2) && Within(f, s.nodes)
    ensures Within(Moved(f, m), s2.nodes)
    ensures QidOf(w, s2, Moved(f, m)) == QidOf(w, s, f) && StatOf(w, s2, Moved(f, m)) == StatOf(w, s, f)
  {
    MovedWithin(s, m, s2, f);
    match f {
      case Base(_) =>
      case Real(inner, _) => StatMoves(w, s, m, s2, inner);
      case ReadOnly(inner) => StatMoves(w, s, m, s2, inner);
      case Tree(n) => NodeMoved(s, m, s2, n);
    }
  }

  lemma {:induction false} ListMoves<N>(w: World, s: Space<N>, m: map<N, N>, s2: Space<N>, f: File<N>)
    requires CopySpace(s, m, s2) && Within(f, s.nodes)
    ensures Within(Moved(f, m), s2.nodes)
    ensures List(w, s2, Moved(f, m)) == List(w, s, f)
    decreases Height(f, s.rank), 0, f
  {
    hide CopySpace;
    assert Sound(s) && Sound(s2) by { Sounds(s, m, s2); }
    MovedWithin(s, m, s2, f);
    match f {
      case Base(_) =>
      case ReadOnly(inner) => ListMoves(w, s, m, s2, inner);
      case Real(inner, _) =>
        ListMoves(w, s, m, s2, inner);
        StatMoves(w, s, m, s2, inner);
      case Tree(n) =>
        NodeMoved(s, m, s2, n);
        assert s2.nodes[m[n]].children == map[] <==> s.nodes[n].children == map[] by {
          assert s.nodes[n].children == map[] <==> s.nodes[n].children.Keys == {};
          assert s2.nodes[m[n]].children == map[] <==> s2.nodes[m[n]].children.Keys == {};
        }
        forall i | 0 <= i < |s.nodes[n].layers|
          ensures LayerList(w, s2, m[n], i) == LayerList(w, s, n, i)
        {
          LayerListMoves(w, s, m, s2, n, i);
        }
        assert AllFail(w, s2, m[n]) <==> AllFail(w, s, n);
        MergedMoves(w, s, m, s2, n, |s.nodes[n].layers|);
    }
  }

  lemma {:induction false} LayerListMoves<N>(w: World, s: Space<N>, m: map<N, N>, s2: Space<N>, n: N, i: nat)
    requires CopySpace(s, m, s2) && n in s.nodes && i < |s.nodes[n].layers|
    ensures m[n] in s2.nodes && i < |s2.nodes[m[n]].layers|
    ensures LayerList(w, s2, m[n], i) == LayerList(w, s, n, i)
    decreases s.rank[n], 1, 0
  {
    hide AllSmall, AllStampedWith;
    LayerMoved(s, m, s2, n, i);
    if s.nodes[n].layers[i].root.Some? {
      ListMoves(w, s, m, s2, s.nodes[n].layers[i].root.value);
    }
  }

  lemma {:induction false} MergedMoves<N>(w: World, s: Space<N>, m: map<N, N>, s2: Space<N>, n: N, k: nat)
    requires CopySpace(s, m, s2) && n in s.nodes && k <= |s.nodes[n].layers|
    ensures m[n] in s2.nodes && k <= |s2.nodes[m[n]].layers|
    ensures Merged(w, s2, m[n], k) == Merged(w, s, n, k)
    decreases s.rank[n], 1, k + 1
  {
    hide LayerList, AddNew, Sorted;
    NodeMoved(s, m, s2, n);
    if k == 0 {
      ChildEntriesMove(s, m, s2, n, Sorted(s.nodes[n].children.Keys));
    } else {
      MergedMoves(w, s, m, s2, n, k - 1);
      LayerListMoves(w, s, m, s2, n, k - 1);
    }
  }

  lemma ChildEntriesMove<N>(s: Space<N>, m: map<N, N>, s2: Space<N>, n: N, names: seq<Name>)
    requires CopySpace(s, m, s2) && n in s.nodes && forall x :: x in names ==> x in s.nodes[n].children
    ensures m[n] in s2.nodes && forall x :: x in names ==> x in s2.nodes[m[n]].children
    ensures ChildEntries(s2, m[n], names) == ChildEntries(s, n, names)
  {
    hide ChildEntries;
    NodeMoved(s, m, s2, n);
    forall k | k in s.nodes[n].children
      ensures TreeStat(s2, s2.nodes[m[n]].children[k], k) == TreeStat(s, s.nodes[n].children[k], k)
    {
      NodeMoved(s, m, s2, s.nodes[n].children[k]);
    }
  }

  /** A path resolves in a copy to what it resolves to in the original. */
  lemma {:induction false} ResolveMoves<N>(
      w: World, s: Space<N>, m: map<N, N>, s2: Space<N>, n: N, path: seq<Name>, i: nat)
    requires CopySpace(s, m, s2) && n in s.nodes && i <= |path|
    ensures n in m && m[n] in s2.nodes
    ensures ResolveFrom(w, s2, m[n], path, i) == ResolveFrom(w, s, n, path, i)
    decreases |path| - i
  {
    hide CopySpace;
    assert Sound(s) && Sound(s2) by { Sounds(s, m, s2); }
    NodeMoved(s, m, s2, n);
    if i == |path| {
      if s.nodes[n].layers != [] {
        LayerMoved(s, m, s2, n, 0);
      }
    } else if path[i] != DOTDOT {
      if path[i] in s.nodes[n].children {
        ResolveMoves(w, s, m, s2, s.nodes[n].children[path[i]], path, i + 1);
      } else {
        ServingMoves(w, s, m, s2, n, path[i], 0);
        var k := Serving(w, s, n, path[i], 0);
        if k < |s.nodes[n].layers| {
          ResolveThrough(w, s, m, s2, n, path, i, k);
        }
      }
    }
  }

  lemma ResolveThrough<N>(
      w: World, s: Space<N>, m: map<N, N>, s2: Space<N>, n: N, path: seq<Name>, i: nat, k: nat)
    requires CopySpace(s, m, s2) && n in s.nodes && i < |path| && k < |s.nodes[n].layers|
    requires Hit(w, s, n, k, path[i]).Some?
    ensures n in m && m[n] in s2.nodes && k < |s2.nodes[m[n]].layers| && Hit(w, s2, m[n], k, path[i]).Some?
    ensures var l, l2 := s.nodes[n].layers[k], s2.nodes[m[n]].layers[k];
            l2.spec == l.spec && l2.ro == l.ro && l2.dev == l.dev
    ensures var f := WalkAll(w, s, Hit(w, s, n, k, path[i]).value, path[i + 1..]);
            var f2 := WalkAll(w, s2, Hit(w, s2, m[n], k, path[i]).value, path[i + 1..]);
            && (f2.Some? <==> f.Some?)
            && (f.Some? ==> ReportedDev(w, s2, s2.nodes[m[n]].layers[k], f2.value)
                            == ReportedDev(w, s, s.nodes[n].layers[k], f.value))
  {
    hide CopySpace;
    assert Sound(s) && Sound(s2) by { Sounds(s, m, s2); }
    NodeMoved(s, m, s2, n);
    HitMoves(w, s, m, s2, n, k, path[i]);
    var hit := Hit(w, s, n, k, path[i]).value;
    WalkAllMoves(w, s, m, s2, hit, path[i + 1..]);
    var f := WalkAll(w, s, hit, path[i + 1..]);
    if f.Some? {
      StatMoves(w, s, m, s2, f.value);
    }
    LayerMoved(s, m, s2, n, k);
  }

  /** All of it, for a path from one node and its copy. */
  lemma AnswersMove<N>(w: World, s: Space<N>, m: map<N, N>, s2: Space<N>, n: N, path: seq<Name>)
    requires CopySpace(s, m, s2) && n in s.nodes
    ensures n in m && m[n] in s2.nodes
    ensures var got, got2 := WalkAll(w, s, Tree(n), path), WalkAll(w, s2, Tree(m[n]), path);
            && got2 == MovedAnswer(got, m)
            && (got.Some? ==> List(w, s2, got2.value) == List(w, s, got.value)
                              && StatOf(w, s2, got2.value) == StatOf(w, s, got.value))
            && ResolveFrom(w, s2, m[n], path, 0) == ResolveFrom(w, s, n, path, 0)
  {
    hide CopySpace, Walk, WalkAll, List, StatOf, ResolveFrom;
    Sounds(s, m, s2);
    NodeMoved(s, m, s2, n);
    WalkAllMoves(w, s, m, s2, Tree(n), path);
    var got := WalkAll(w, s, Tree(n), path);
    if got.Some? {
      ListMoves(w, s, m, s2, got.value);
      StatMoves(w, s, m, s2, got.value);
    }
    ResolveMoves(w, s, m, s2, n, path, 0);
  }

  // ----- the ranks do not show -----

  lemma {:induction false} MovedByItself<N>(f: File<N>, m: map<N, N>)
    requires forall n | n in m :: m[n] == n
    ensures Moved(f, m) == f
  {
    match f {
      case Base(_) =>
      case Tree(_) =>
      case Real(inner, _) => MovedByItself(inner, m);
      case ReadOnly(inner) => MovedByItself(inner, m);
    }
  }

  lemma RanksApart<N>(s: Space<N>, rank: map<N, nat>) returns (m: map<N, N>)
    requires Sound(s) && Ranked(s.nodes, rank)
    ensures m == map n | n in s.nodes :: n
    ensures CopySpace(s, m, s.(rank := rank))
  {
    m := map n | n in s.nodes :: n;
    forall n, i | n in s.nodes && 0 <= i < |s.nodes[n].layers| && s.nodes[n].layers[i].root.Some?
      ensures Moved(s.nodes[n].layers[i].root.value, m) == s.nodes[n].layers[i].root.value
    {
      MovedByItself(s.nodes[n].layers[i].root.value, m);
    }
  }

  /** Walks, listings and resolutions are the same under any ranking of the tree. */
  lemma RanksDoNotShow<N>(w: World, s: Space<N>, rank: map<N, nat>, f: File<N>, path: seq<Name>, n: N)
    requires Sound(s) && Ranked(s.nodes, rank) && Within(f, s.nodes) && n in s.nodes
    ensures Sound(s.(rank := rank))
    ensures WalkAll(w, s.(rank := rank), f, path) == WalkAll(w, s, f, path)
    ensures List(w, s.(rank := rank), f) == List(w, s, f)
    ensures StatOf(w, s.(rank := rank), f) == StatOf(w, s, f)
    ensures ResolveFrom(w, s.(rank := rank), n, path, 0) == ResolveFrom(w, s, n, path, 0)
  {
    hide CopySpace;
    var m := RanksApart(s, rank);
    MovedByItself(f, m);
    WalkAllMoves(w, s, m, s.(rank := rank), f, path);
    ListMoves(w, s, m, s.(rank := rank), f);
    StatMoves(w, s, m, s.(rank := rank), f);
    ResolveMoves(w, s, m, s.(rank := rank), n, path, 0);
    if WalkAll(w, s, f, path).Some? {
      MovedByItself(WalkAll(w, s, f, path).value, m);
    }
  }
}
