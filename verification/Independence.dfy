/** After a clone, the original and the copy are changed and used independently: any interleaving of
    binds, unbinds and requests on the two (ns/clone.go, ns/ns.go). */
module Independence {
  import opened Bytes
  import opened Messages
  import opened Names
  import opened Paths
  import opened BindGraph
  import opened Acyclic
  import opened Remap
  import opened Hiding
  import opened Resolving
  import opened Namespaces
  import opened Cloning
  import opened Replay
  import opened BindList
  import opened Changes

  // ----- ranks, whatever the filesystems answer -----

  /** A layer that leads to a node does so from when it was made, so ranks depend on no world. */
  ghost predicate RankedBy(ns: Namespace, rank: map<Node, nat>)
    requires ns.Shaped()
    reads ns, ns.at.Keys, ns.owned
  {
    forall n | n in ns.at :: n in rank && forall i | 0 <= i < |n.layers| ::
      n.layers[i].resolved.Some? ==> Height(n.layers[i].resolved.value, rank) <= rank[n]
  }

  lemma LayerLeads(ns: Namespace, n: Node, i: nat, w: World)
    requires ns.Valid() && n in ns.at && i < |n.layers|
    ensures n in ns.Nodes(w) && i < |ns.Nodes(w)[n].layers| && n.layers[i] in ns.owned
    ensures ns.Nodes(w)[n].layers[i].root == n.layers[i].Root(w)
    ensures var l := n.layers[i];
            && (l.resolved.Some? ==> l.Root(w) == l.resolved)
            && (l.resolved == None && l.Root(w).Some? ==> Core(l.Root(w).value) == None)
            && (l.Root(w).Some? ==> Within(l.Root(w).value, ns.Nodes(w)))
  {
    hide Namespace.TreeShaped, Canonical;
    n.layers[i].AttachedOutside(w);
    assert ns.Holds(n.layers[i]);
  }

  lemma RankedNow(ns: Namespace, rank: map<Node, nat>, w: World)
    requires ns.Valid() && RankedBy(ns, rank)
    ensures Sound(ns.SpaceOf(w, rank)) && ns.root in ns.Nodes(w)
  {
    hide Namespace.LayersOwned, Namespace.Holds, Namespace.HasParent;
    var nodes := ns.Nodes(w);
    forall n, i | n in nodes && 0 <= i < |nodes[n].layers| && nodes[n].layers[i].root.Some?
      ensures Within(nodes[n].layers[i].root.value, nodes)
      ensures Height(nodes[n].layers[i].root.value, rank) <= rank[n]
    {
      LayerLeads(ns, n, i, w);
    }
  }

  lemma RankedBack(ns: Namespace, rank: map<Node, nat>, w: World)
    requires ns.Valid() && Ranked(ns.Nodes(w), rank)
    ensures RankedBy(ns, rank)
  {
    hide Namespace.TreeShaped, Namespace.LayersOwned, Namespace.Holds;
    forall n, i | n in ns.at && 0 <= i < |n.layers| && n.layers[i].resolved.Some?
      ensures Height(n.layers[i].resolved.value, rank) <= rank[n]
    {
      LayerLeads(ns, n, i, w);
    }
  }

  // ----- whether a bind would close a cycle -----

  lemma TargetIs(ns: Namespace, n: Node, i: nat, w: World)
    requires ns.Valid() && n in ns.at && i < |n.layers|
    ensures n in ns.Nodes(w) && |ns.Nodes(w)[n].layers| == |n.layers|
    ensures Target(ns.Nodes(w), n, i) == if n.layers[i].resolved.Some? then Core(n.layers[i].resolved.value) else None
    ensures Target(ns.Nodes(w), n, i).Some? ==> Target(ns.Nodes(w), n, i).value in ns.at
  {
    LayerLeads(ns, n, i, w);
  }

  /** Layer j of n leads to a node that reaches d. */
  ghost predicate Via(s: Space<Node>, n: Node, j: nat, d: Node)
    requires Sound(s) && n in s.nodes && j < |s.nodes[n].layers|
  {
    Target(s.nodes, n, j).Some? && Reaches(s.nodes, s.rank, Target(s.nodes, n, j).value, d)
  }

  lemma ReachesIsVia(s: Space<Node>, n: Node, d: Node)
    requires Sound(s) && n in s.nodes
    ensures Reaches(s.nodes, s.rank, n, d) <==> n == d || exists j | 0 <= j < |s.nodes[n].layers| :: Via(s, n, j, d)
  {
    forall j | 0 <= j < |s.nodes[n].layers| && Via(s, n, j, d)
      ensures Reaches(s.nodes, s.rank, n, d)
    {
      ReachesVia(s.nodes, s.rank, n, j, d);
    }
    if Reaches(s.nodes, s.rank, n, d) && n != d {
      var j :| 0 <= j < |s.nodes[n].layers| && Target(s.nodes, n, j).Some?
               && Reaches(s.nodes, s.rank, Target(s.nodes, n, j).value, d);
      assert Via(s, n, j, d);
    }
  }

  lemma ViaTarget(s: Space<Node>, n: Node, j: nat, d: Node)
    requires Sound(s) && n in s.nodes && j < |s.nodes[n].layers|
    ensures Target(s.nodes, n, j).Some? ==>
              var c := Target(s.nodes, n, j).value;
              && c in s.nodes && c in s.rank && n in s.rank && s.rank[c] < s.rank[n]
              && (Via(s, n, j, d) <==> Reaches(s.nodes, s.rank, c, d))
    ensures Target(s.nodes, n, j) == None ==> !Via(s, n, j, d)
  {
    hide Reaches;
  }

  /** Whether following layers leads from n to d. */
  method LeadsTo(ns: Namespace, ghost w: World, ghost rank: map<Node, nat>, n: Node, d: Node) returns (r: bool)
    requires ns.Valid() && Sound(ns.SpaceOf(w, rank)) && n in ns.Nodes(w)
    ensures r <==> Reaches(ns.Nodes(w), rank, n, d)
    decreases rank[n]
  {
    hide Namespace.TreeShaped, Namespace.LayersOwned, Namespace.Holds, Namespace.Nodes, Sound, Target, Via, Reaches;
    ghost var s := ns.SpaceOf(w, rank);
    ReachesIsVia(s, n, d);
    if n == d {
      return true;
    }
    ns.NodeView(w, n);
    var i := 0;
    while i < |n.layers|
      invariant 0 <= i <= |n.layers| == |s.nodes[n].layers|
      invariant forall j | 0 <= j < i :: !Via(s, n, j, d)
    {
      TargetIs(ns, n, i, w);
      ViaTarget(s, n, i, d);
      var l := n.layers[i];
      if l.resolved.Some? && Core(l.resolved.value).Some? {
        var found := LeadsTo(ns, w, rank, Core(l.resolved.value).value, d);
        if found {
          return true;
        }
      }
      i := i + 1;
    }
    return false;
  }

  /** Whether binding the sources at dst would close a cycle. */
  method Closes(ns: Namespace, w: World, ghost rank: map<Node, nat>, srcs: seq<Name>, dst: Name) returns (r: bool)
    requires ns.Valid() && Sound(ns.SpaceOf(w, rank))
    modifies ns.owned`resolved
    ensures ns.Valid() && ns.Nodes(w) == old(ns.Nodes(w)) && ns.Settles(ns.owned, w)
    ensures r <==> WouldCycle(w, ns.SpaceOf(w, rank), ns.at, ns.root, srcs, dst)
  {
    hide Namespace.TreeShaped, Namespace.LayersOwned, Namespace.Holds, Namespace.Nodes, Ranked, Closed, Reaches,
         BindGraph.WalkAll, SplitPath, FileReaches, Layer.Root, Namespace.HasPath;
    ghost var s := ns.SpaceOf(w, rank);
    ns.GrewNot(w);
    var d := ns.FindNode(SplitPath(dst));
    var closes := false;
    var i := 0;
    while i < |srcs|
      invariant 0 <= i <= |srcs| && ns.Valid() && ns.Nodes(w) == s.nodes && ns.Settles(ns.owned, w)
      invariant forall j | 0 <= j < i :: WalkAll(w, s, Tree(ns.root), SplitPath(srcs[j])).Some?
      invariant closes <==> d.Some? && exists j | 0 <= j < i ::
                  FileReaches(s, WalkAll(w, s, Tree(ns.root), SplitPath(srcs[j])).value, d.value)
    {
      var f := ns.WalkAll(w, rank, Tree(ns.root), SplitPath(srcs[i]));
      if f == None {
        return false;
      }
      var here := false;
      if d.Some? && Core(f.value).Some? {
        here := LeadsTo(ns, w, rank, Core(f.value).value, d.value);
      }
      assert here <==> d.Some? && FileReaches(s, f.value, d.value) by {
        FileReachesIs(s, f.value);
      }
      closes := closes || here;
      i := i + 1;
    }
    OnlyOneAt(ns, SplitPath(dst), d);
    return closes;
  }

  lemma OnlyOneAt(ns: Namespace, path: Path, d: Option<Node>)
    requires ns.Valid() && (d.Some? <==> ns.HasPath(path)) && (d.Some? ==> d.value in ns.at && ns.at[d.value] == path)
    ensures forall e | e in ns.at && ns.at[e] == path :: d == Some(e)
  {
    hide Namespace.LayersOwned, Namespace.Holds, Namespace.HasParent;
    forall e | e in ns.at && ns.at[e] == path
      ensures d == Some(e)
    {
      assert ns.HasPath(path);
    }
  }

  lemma FileReachesIs(s: Space<Node>, f: File<Node>)
    requires Sound(s) && Within(f, s.nodes)
    ensures forall d :: FileReaches(s, f, d) <==> Core(f).Some? && Reaches(s.nodes, s.rank, Core(f).value, d)
  {
    hide Reaches;
  }

  // ----- binding a path without closing a cycle -----

  /** Layers that hold what the sources give. */
  ghost predicate Holding(more: seq<LayerView<Node>>, w: World, s: Space<Node>, root: Node, srcs: seq<Name>, ro: bool)
    requires Sound(s) && root in s.nodes
  {
    && |more| == |srcs|
    && forall i | 0 <= i < |srcs| ::
         var f := WalkAll(w, s, Tree(root), SplitPath(srcs[i]));
         f.Some? && more[i].root == Some(if ro then ReadOnly(f.value) else f.value)
  }

  lemma CapturedHold(ns: Namespace, ls: seq<Layer>, w: World, s: Space<Node>, srcs: seq<Name>, before: nat, ro: bool)
    requires Sound(s) && ns.root in s.nodes && ns.AllCapture(ls, w, s, srcs, before, ro)
    ensures Holding(Views(ls, w), w, s, ns.root, srcs, ro)
  {
    hide Sound, SplitPath, WalkAll;
    forall i | 0 <= i < |srcs|
      ensures var f := WalkAll(w, s, Tree(ns.root), SplitPath(srcs[i]));
              f.Some? && Views(ls, w)[i].root == Some(if ro then ReadOnly(f.value) else f.value)
    {
      assert ns.Captures(ls[i], WalkAll(w, s, Tree(ns.root), SplitPath(srcs[i])), srcs[i], before + i + 1, ro);
    }
  }

  /** Bound at the path, such layers close a cycle exactly when one of the sources reaches the node
      that is there; then no ranks are left. */
  lemma PathBindKeepsRanks(
      w: World, s: Space<Node>, at: map<Node, Path>, root: Node, srcs: seq<Name>, dst: Name, ro: bool,
      after: map<Node, NodeView<Node>>, d: Node, more: seq<LayerView<Node>>, disp: Disposition)
    requires Sound(s) && root in s.nodes && at.Keys == s.nodes.Keys && Closed(after)
    requires Holding(more, w, s, root, srcs, ro) && BoundAt(s.nodes, after, d, more, disp)
    requires forall e | e in at :: at[e] == SplitPath(dst) <==> e == d
    ensures (exists r: map<Node, nat> :: Ranked(after, r)) <==> !WouldCycle(w, s, at, root, srcs, dst)
  {
    hide Ranked, Closed, SplitPath, WalkAll, BoundAt, Reaches;
    assert Namespace.AllFound(w, s, root, srcs);
    forall i | 0 <= i < |more|
      ensures more[i].root.Some? && Within(more[i].root.value, s.nodes)
      ensures LayerReaches(s.nodes, s.rank, more[i], d)
         <==> FileReaches(s, WalkAll(w, s, Tree(root), SplitPath(srcs[i])).value, d)
    {
      var f := WalkAll(w, s, Tree(root), SplitPath(srcs[i]));
      assert f.Some? && more[i].root == Some(if ro then ReadOnly(f.value) else f.value);
    }
    BindAtKeepsAcyclic(s.nodes, after, s.rank, d, more, disp);
  }

  lemma ShotSound(ns: Namespace, rank: map<Node, nat>, w: World)
    requires ns.Valid() && RankedBy(ns, rank)
    ensures Whole(ShotOf(ns, rank)) && SpaceIn(ShotOf(ns, rank), w) == ns.SpaceOf(w, rank) && Sound(ns.SpaceOf(w, rank))
    ensures ns.root in ns.Nodes(w) && ns.root in ns.at
  {
    hide Whole, Namespace.Valid, RankedBy, Namespace.Nodes, NodesIn, Sound;
    ns.GrewNot(w);
    ShotWhole(ns, rank);
    ShotNodes(ns, rank, w);
    RankedNow(ns, rank, w);
  }

  twostate lemma SettlesFollows(new ns: Namespace, new w: World)
    requires old(allocated(ns)) && ns.Settles(old(ns.owned), w)
    ensures forall l | l in old(ns.owned) :: Follows(old(l.State()), Some(w), l.State())
  {
    hide LayerState.Root;
  }

  twostate lemma UntouchedFollows(new ns: Namespace)
    requires old(allocated(ns)) && forall l | l in old(ns.owned) :: l.resolved == old(l.resolved)
    ensures forall l | l in old(ns.owned) :: Follows(old(l.State()), None, l.State())
  {
  }

  lemma CapturedStates(ns: Namespace, ls: seq<Layer>, w: World, s: Space<Node>, srcs: seq<Name>, before: nat, ro: bool)
    requires Sound(s) && ns.root in s.nodes && ns.AllCapture(ls, w, s, srcs, before, ro)
    requires Namespace.AllFound(w, s, ns.root, srcs)
    ensures StatesOf(ls) == Captured(w, s, ns.root, srcs, before, ro)
  {
    hide Sound, SplitPath, WalkAll, LayerState.Root;
    forall i | 0 <= i < |srcs|
      ensures StatesOf(ls)[i] == Captured(w, s, ns.root, srcs, before, ro)[i]
    {
      assert ns.Captures(ls[i], WalkAll(w, s, Tree(ns.root), SplitPath(srcs[i])), srcs[i], before + i + 1, ro);
    }
  }

  /** The effect of a path bind that goes ahead. */
  twostate lemma PathBindEffect(
      new c: Namespace, new w: World, new rank: map<Node, nat>, new now: map<Node, nat>, new srcs: seq<Name>, new dst: Name,
      new disp: Option<Disposition>, new ro: bool, new n: Node, new ls: seq<Layer>, new ok: bool)
    requires old(allocated(c)) && old(allocated(rank)) && old(c.Valid()) && c.Valid()
    requires Whole(old(ShotOf(c, rank))) && SpaceIn(old(ShotOf(c, rank)), w) == old(c.SpaceOf(w, rank))
    requires old(RankedBy(c, rank)) && RankedBy(c, now) && Sound(old(c.SpaceOf(w, rank))) && c.root in old(c.Nodes(w))
    requires disp == None || !WouldCycle(w, old(c.SpaceOf(w, rank)), old(c.at), c.root, srcs, dst)
    requires ok <==> srcs != [] && disp.Some? && Namespace.AllFound(w, old(c.SpaceOf(w, rank)), c.root, srcs)
    requires c.seqNo == old(c.seqNo) + Namespace.FirstMissing(w, old(c.SpaceOf(w, rank)), c.root, srcs, 0)
    requires c.Settles(old(c.owned), w) && forall m | m in old(c.at) :: m in c.at && c.at[m] == old(c.at)[m]
    requires srcs == [] || !Namespace.AllFound(w, old(c.SpaceOf(w, rank)), c.root, srcs) ==>
               c.at == old(c.at) && forall m | m in c.at :: m.children == old(m.children) && m.layers == old(m.layers)
    requires srcs != [] && Namespace.AllFound(w, old(c.SpaceOf(w, rank)), c.root, srcs) ==>
               && n in c.at && c.at[n] == SplitPath(dst) && c.PutAt(n, ls, disp)
               && (forall q :: c.HasPath(q) <==> old(c.HasPath(q)) || IsPrefix(q, SplitPath(dst)))
               && c.AllCapture(ls, w, old(c.SpaceOf(w, rank)), srcs, old(c.seqNo), ro)
    ensures Does(old(ShotOf(c, rank)), GraftPath(srcs, dst, disp, ro), w, ShotOf(c, now), Reply(ok, None, None, None))
  {
    hide Namespace.TreeShaped, Namespace.LayersOwned, Namespace.Holds, Namespace.Nodes, Ranked, Closed, WouldCycle,
         SplitPath, RankedBy, Whole, NodesIn, Put, Settled, Captured, Namespace.PutAt, Namespace.AllCapture,
         Namespace.Settles, Follows, Namespace.AllFound, Namespace.FirstMissing, StatesOf;
    ShotSound(c, now, w);
    SettlesFollows(c, w);
    if srcs != [] && Namespace.AllFound(w, old(c.SpaceOf(w, rank)), c.root, srcs) {
      PutAtPuts(c, rank, now, n, ls, disp, Some(w), SplitPath(dst));
      CapturedStates(c, ls, w, old(c.SpaceOf(w, rank)), srcs, old(c.seqNo), ro);
    } else {
      UnmovedSettles(c, rank, now, Some(w));
    }
  }

  /** A path bind that goes ahead, with ranks for what it leaves. */
  method BindPathRanked(
      c: Namespace, w: World, ghost rank: map<Node, nat>, srcs: seq<Name>, dst: Name, disp: Option<Disposition>, ro: bool)
      returns (ok: bool, ghost now: map<Node, nat>, ghost n: Node, ghost ls: seq<Layer>)
    requires c.Valid() && Sound(c.SpaceOf(w, rank))
    requires disp == None || !WouldCycle(w, c.SpaceOf(w, rank), c.at, c.root, srcs, dst)
    modifies c, c.at.Keys, c.owned
    ensures c.Valid() && RankedBy(c, now)
    ensures fresh(c.at.Keys - old(c.at.Keys)) && fresh(c.owned - old(c.owned))
    ensures c.root in old(c.Nodes(w))
    ensures ok <==> srcs != [] && disp.Some? && Namespace.AllFound(w, old(c.SpaceOf(w, rank)), c.root, srcs)
    ensures c.seqNo == old(c.seqNo) + Namespace.FirstMissing(w, old(c.SpaceOf(w, rank)), c.root, srcs, 0)
    ensures c.Settles(old(c.owned), w) && forall m | m in old(c.at) :: m in c.at && c.at[m] == old(c.at)[m]
    ensures srcs == [] || !Namespace.AllFound(w, old(c.SpaceOf(w, rank)), c.root, srcs) ==>
              c.at == old(c.at) && forall m | m in c.at :: m.children == old(m.children) && m.layers == old(m.layers)
    ensures srcs != [] && Namespace.AllFound(w, old(c.SpaceOf(w, rank)), c.root, srcs) ==>
              && n in c.at && c.at[n] == SplitPath(dst) && c.PutAt(n, ls, disp)
              && (forall q :: c.HasPath(q) <==> old(c.HasPath(q)) || IsPrefix(q, SplitPath(dst)))
              && c.AllCapture(ls, w, old(c.SpaceOf(w, rank)), srcs, old(c.seqNo), ro)
  {
    hide Namespace.TreeShaped, Namespace.LayersOwned, Namespace.Holds, Namespace.Nodes, Ranked, Closed, WouldCycle,
         BoundAt, Grew, Views, SplitPath, RankedBy, LayerState.Root, Namespace.PutAt, Namespace.Settles,
         Namespace.AllCapture, Namespace.AllFound, Namespace.FirstMissing;
    ghost var s := c.SpaceOf(w, rank);
    ok, n, ls := c.BindPath(w, rank, srcs, dst, disp, ro);
    NodesClosed(c, w);
    if ok {
      CapturedHold(c, ls, w, s, srcs, old(c.seqNo), ro);
      OnlyAt(c, w, s, n, SplitPath(dst));
      PathBindKeepsRanks(w, s, old(c.at), c.root, srcs, dst, ro, c.Nodes(w), n, Views(ls, w), disp.value);
      now :| Ranked(c.Nodes(w), now);
    } else {
      GrowthKeepsAcyclic(s.nodes, c.Nodes(w), rank);
      now := Extended(rank, c.Nodes(w));
    }
    RankedBack(c, now, w);
  }

  twostate lemma LeftOutEffect(
      new c: Namespace, new w: World, new rank: map<Node, nat>, new srcs: seq<Name>, new dst: Name,
      new disp: Option<Disposition>, new ro: bool)
    requires old(allocated(c)) && old(allocated(rank)) && old(c.Valid()) && c.Valid()
    requires Whole(old(ShotOf(c, rank))) && SpaceIn(old(ShotOf(c, rank)), w) == old(c.SpaceOf(w, rank))
    requires old(RankedBy(c, rank)) && RankedBy(c, rank) && Sound(old(c.SpaceOf(w, rank)))
    requires disp.Some? && WouldCycle(w, old(c.SpaceOf(w, rank)), old(c.at), c.root, srcs, dst)
    requires c.Settles(old(c.owned), w) && c.seqNo == old(c.seqNo) && c.at == old(c.at)
    requires forall m | m in c.at :: m.children == old(m.children) && m.layers == old(m.layers)
    ensures Does(old(ShotOf(c, rank)), GraftPath(srcs, dst, disp, ro), w, ShotOf(c, rank), Reply(false, None, None, None))
  {
    hide Namespace.TreeShaped, Namespace.LayersOwned, Namespace.Holds, Namespace.Nodes, Ranked, Closed, WouldCycle,
         SplitPath, RankedBy, Whole, NodesIn, Settled, Namespace.Settles, Follows, StatesOf;
    ShotSound(c, rank, w);
    SettlesFollows(c, w);
    UnmovedSettles(c, rank, rank, Some(w));
  }

  /** Binds paths unless that would close a cycle, after which some walks would not end. */
  method GraftPathSafely(
      c: Namespace, w: World, ghost rank: map<Node, nat>, srcs: seq<Name>, dst: Name, disp: Option<Disposition>, ro: bool)
      returns (reply: Reply, ghost now: map<Node, nat>)
    requires c.Valid() && RankedBy(c, rank)
    modifies c, c.at.Keys, c.owned
    ensures c.Valid() && RankedBy(c, now)
    ensures fresh(c.at.Keys - old(c.at.Keys)) && fresh(c.owned - old(c.owned))
    ensures Does(old(ShotOf(c, rank)), GraftPath(srcs, dst, disp, ro), w, ShotOf(c, now), reply)
  {
    hide Namespace.TreeShaped, Namespace.LayersOwned, Namespace.Holds, Namespace.Nodes, Ranked, Closed, WouldCycle,
         BoundAt, Grew, Views, SplitPath, RankedBy, ShotOf, Whole, NodesIn, Put, Settled, Captured, LayerState.Root,
         Does;
    ShotSound(c, rank, w);
    var closes := Closes(c, w, rank, srcs, dst);
    now := rank;
    if disp == None || !closes {
      var ok;
      ghost var n, ls;
      ok, now, n, ls := BindPathRanked(c, w, rank, srcs, dst, disp, ro);
      PathBindEffect(c, w, rank, now, srcs, dst, disp, ro, n, ls, ok);
      reply := Reply(ok, None, None, None);
    } else {
      RankedBack(c, now, w);
      LeftOutEffect(c, w, rank, srcs, dst, disp, ro);
      reply := Reply(false, None, None, None);
    }
  }

  lemma NodesClosed(ns: Namespace, w: World)
    requires ns.Valid()
    ensures Closed(ns.Nodes(w)) && ns.Nodes(w).Keys == ns.at.Keys
  {
    hide Namespace.LayersOwned, Namespace.Holds, Namespace.HasParent;
    var nodes := ns.Nodes(w);
    forall n, i | n in nodes && 0 <= i < |nodes[n].layers| && nodes[n].layers[i].root.Some?
      ensures Within(nodes[n].layers[i].root.value, nodes)
    {
      LayerLeads(ns, n, i, w);
    }
  }

  twostate lemma OnlyAt(new ns: Namespace, new w: World, new s: Space<Node>, new d: Node, new path: Path)
    requires old(allocated(ns)) && old(ns.Valid()) && ns.Valid() && s.nodes == old(ns.Nodes(w))
    requires d in ns.at && ns.at[d] == path && forall m | m in old(ns.at) :: m in ns.at && ns.at[m] == old(ns.at)[m]
    ensures old(ns.at).Keys == s.nodes.Keys && ns.root in s.nodes
    ensures forall e | e in old(ns.at) :: old(ns.at)[e] == path <==> e == d
  {
    hide Namespace.LayersOwned, Namespace.Holds, Namespace.HasParent;
  }

  twostate lemma NewNodesUnranked(
      new ns: Namespace, new rank: map<Node, nat>, new n: Node, new more: seq<Layer>, new disp: Option<Disposition>)
      returns (now: map<Node, nat>)
    requires old(allocated(ns)) && old(allocated(rank)) && old(ns.Valid()) && ns.Valid() && old(RankedBy(ns, rank))
    requires old(ns.at).Keys <= ns.at.Keys && n in ns.at && forall l | l in more :: l.resolved == None
    requires forall l | l in old(ns.owned) :: l.resolved == old(l.resolved)
    requires ns.PutAt(n, more, disp)
    ensures RankedBy(ns, now)
  {
    hide Namespace.TreeShaped, Canonical;
    now := map m | m in ns.at :: if m in rank then rank[m] else 0;
    forall m, i | m in ns.at && 0 <= i < |m.layers| && m.layers[i].resolved.Some?
      ensures Height(m.layers[i].resolved.value, now) <= now[m]
    {
      var l := m.layers[i];
      assert m in old(ns.at) && l in old(m.layers) by {
        if m == n && disp.Some? {
          var was := if n in old(ns.at) then old(n.layers) else [];
          assert l in Spliced(was, more, disp.value) && (l in was || l in more);
        }
      }
      var j :| 0 <= j < |old(m.layers)| && old(m.layers)[j] == l;
      assert l in old(ns.owned);
      assert old(ns.Holds(l));
      assert l.resolved == old(l.resolved) && Height(l.resolved.value, rank) <= rank[m];
      assert Core(l.resolved.value).Some? ==> Core(l.resolved.value).value in old(ns.at);
    }
  }

  // ----- one change -----

  /** Two namespaces with nothing in common. */
  ghost predicate Apart(a: Namespace, b: Namespace)
    reads a, b, a.at.Keys, b.at.Keys, a.owned, b.owned
  {
    a != b && a.Valid() && b.Valid() && a.at.Keys !! b.at.Keys && a.owned !! b.owned
  }

  twostate lemma UnbindKeepsRanks(new ns: Namespace, new rank: map<Node, nat>, new n: Node)
    requires old(allocated(ns)) && old(allocated(rank)) && old(ns.Valid()) && ns.Valid() && old(RankedBy(ns, rank))
    requires ns.at == old(ns.at) && n in ns.at && (n.layers == [] || n.layers == old(n.layers))
    requires ns.owned == old(ns.owned) && forall l | l in ns.owned :: l.resolved == old(l.resolved)
    requires forall m | m in ns.at && m != n :: m.layers == old(m.layers)
    ensures RankedBy(ns, rank)
  {
    hide Namespace.TreeShaped, Namespace.Holds, Canonical;
    forall m, i | m in ns.at && 0 <= i < |m.layers| && m.layers[i].resolved.Some?
      ensures m in rank && Height(m.layers[i].resolved.value, rank) <= rank[m]
    {
      assert m.layers == old(m.layers) && m.layers[i] in old(m.layers);
    }
  }

  /** A request for a path: the file walked to, what it lists, and how the path resolves. */
  method LookAt(c: Namespace, w: World, ghost rank: map<Node, nat>, path: Path)
    returns (f: Option<File<Node>>, entries: Option<seq<Stat>>, res: Option<Resolution>)
    requires c.Valid() && RankedBy(c, rank)
    modifies c.owned`resolved
    ensures c.Valid() && RankedBy(c, rank) && c.Nodes(w) == old(c.Nodes(w)) && c.Settles(c.owned, w)
    ensures var s := c.SpaceOf(w, rank);
            && Sound(s) && c.root in s.nodes
            && f == WalkAll(w, s, Tree(c.root), path)
            && entries == (if f.Some? then List(w, s, f.value) else None)
            && res == ResolveFrom(w, s, c.root, path, 0)
  {
    hide Namespace.TreeShaped, Namespace.LayersOwned, Namespace.Holds, Namespace.Nodes, Ranked, Closed,
         RankedBy, WalkAll, List, ResolveFrom;
    RankedNow(c, rank, w);
    f := c.WalkAll(w, rank, Tree(c.root), path);
    entries := None;
    if f.Some? {
      entries := c.ListFile(w, rank, f.value);
    }
    res := c.Resolve(w, rank, path);
    RankedBack(c, rank, w);
  }

  twostate lemma FSEffect(
      new c: Namespace, new w: World, new rank: map<Node, nat>, new now: map<Node, nat>, new fs: nat, new subpath: Name,
      new dst: Name, new disp: Option<Disposition>, new spec: Name, new ro: bool, new n: Node, new l: Layer)
    requires old(allocated(c)) && old(allocated(rank)) && old(c.Valid()) && c.Valid() && RankedBy(c, now)
    requires Whole(old(ShotOf(c, rank))) && Sound(SpaceIn(old(ShotOf(c, rank)), w))
    requires n in c.at && c.at[n] == SplitPath(dst) && c.PutAt(n, [l], disp) && c.seqNo == old(c.seqNo) + 1
    requires forall m | m in old(c.at) :: m in c.at && c.at[m] == old(c.at)[m]
    requires forall q :: c.HasPath(q) <==> old(c.HasPath(q)) || IsPrefix(q, SplitPath(dst))
    requires forall k | k in old(c.owned) :: k.resolved == old(k.resolved)
    requires l.State() == LayerState(Some(fs), SplitPath(subpath), None, spec, c.seqNo, ro)
    ensures Does(old(ShotOf(c, rank)), GraftFS(fs, subpath, dst, disp, spec, ro), w, ShotOf(c, now),
                 Reply(disp.Some?, None, None, None))
  {
    hide Namespace.TreeShaped, Namespace.LayersOwned, Namespace.Holds, Namespace.Nodes, Sound, SplitPath, RankedBy,
         Whole, NodesIn, Put, Namespace.PutAt, Follows;
    ShotSound(c, now, w);
    UntouchedFollows(c);
    PutAtPuts(c, rank, now, n, [l], disp, None, SplitPath(dst));
    assert StatesOf([l]) == [l.State()];
  }

  twostate lemma ClearEffect(
      new c: Namespace, new w: World, new rank: map<Node, nat>, new path: Name, new n: Node, new ok: bool)
    requires old(allocated(c)) && old(allocated(rank)) && old(c.Valid()) && c.Valid() && RankedBy(c, rank)
    requires Whole(old(ShotOf(c, rank))) && Sound(SpaceIn(old(ShotOf(c, rank)), w))
    requires c.at == old(c.at) && c.seqNo == old(c.seqNo) && n in c.at
    requires ok == (c.HasPath(SplitPath(path)) && c.at[n] == SplitPath(path) && old(n.layers) != [])
    requires c.HasPath(SplitPath(path)) ==> c.at[n] == SplitPath(path)
    requires n.layers == if ok then [] else old(n.layers)
    requires forall m | m in c.at :: m.children == old(m.children) && (m != n ==> m.layers == old(m.layers))
    requires forall l | l in old(c.owned) :: l.resolved == old(l.resolved)
    ensures Does(old(ShotOf(c, rank)), Clear(path), w, ShotOf(c, rank), Reply(ok, None, None, None))
  {
    hide Namespace.TreeShaped, Namespace.LayersOwned, Namespace.Holds, Namespace.Nodes, Sound, SplitPath, RankedBy,
         Whole, NodesIn, Cleared, StatesOf;
    ShotSound(c, rank, w);
    forall m | m in c.at
      ensures c.at[m] == SplitPath(path) ==> c.HasPath(SplitPath(path)) && m == n
    {
      if c.at[m] == SplitPath(path) {
        assert c.HasPath(SplitPath(path));
        OnlyOneHere(c, n, m);
      }
    }
    Emptied(c, rank, rank, SplitPath(path));
    assert old(StatesOf(n.layers)) == [] <==> old(n.layers) == [] by {
      assert |old(StatesOf(n.layers))| == |old(n.layers)|;
    }
    var x := old(ShotOf(c, rank));
    assert x.nodes[n].layers == old(StatesOf(n.layers));
  }

  twostate lemma LookEffect(new c: Namespace, new w: World, new rank: map<Node, nat>, new path: Name, new reply: Reply)
    requires old(allocated(c)) && old(allocated(rank)) && old(c.Valid()) && c.Valid() && RankedBy(c, rank)
    requires Whole(old(ShotOf(c, rank))) && Sound(SpaceIn(old(ShotOf(c, rank)), w)) && c.root in old(ShotOf(c, rank)).nodes
    requires reply == ReplyIn(old(ShotOf(c, rank)), Look(path), w)
    requires c.at == old(c.at) && c.seqNo == old(c.seqNo) && c.Settles(old(c.owned), w)
    requires forall m | m in c.at :: m.children == old(m.children) && m.layers == old(m.layers)
    ensures Does(old(ShotOf(c, rank)), Look(path), w, ShotOf(c, rank), reply)
  {
    hide Namespace.TreeShaped, Namespace.LayersOwned, Namespace.Holds, Namespace.Nodes, Sound, SplitPath, RankedBy,
         Whole, NodesIn, Settled, Namespace.Settles, Follows;
    ShotSound(c, rank, w);
    SettlesFollows(c, w);
    UnmovedSettles(c, rank, rank, Some(w));
  }

  /** One operation: its whole effect, and what the caller is told. */
  method Do(c: Namespace, op: Change, w: World, ghost rank: map<Node, nat>) returns (reply: Reply, ghost now: map<Node, nat>)
    requires c.Valid() && RankedBy(c, rank)
    modifies c, c.at.Keys, c.owned
    ensures c.Valid() && RankedBy(c, now)
    ensures fresh(c.at.Keys - old(c.at.Keys)) && fresh(c.owned - old(c.owned))
    ensures Does(old(ShotOf(c, rank)), op, w, ShotOf(c, now), reply)
  {
    hide Namespace.TreeShaped, Namespace.LayersOwned, Namespace.Holds, Namespace.Nodes, BoundAt, Grew, Sound,
         RankedBy, WouldCycle, Spliced, SplitPath, WalkAll, List, ResolveFrom, Does, Whole, NodesIn, Namespace.PutAt,
         Namespace.HasPath, IsBound, StatesOf;
    ShotSound(c, rank, w);
    match op {
      case GraftFS(fs, subpath, dst, disp, spec, ro) =>
        var ok, n, l := c.BindFS(fs, subpath, dst, disp, spec, ro);
        now := NewNodesUnranked(c, rank, n, [l], disp);
        FSEffect(c, w, rank, now, fs, subpath, dst, disp, spec, ro, n, l);
        reply := Reply(ok, None, None, None);
      case GraftPath(srcs, dst, disp, ro) =>
        reply, now := GraftPathSafely(c, w, rank, srcs, dst, disp, ro);
      case Clear(path) =>
        var ok, n := c.Unbind(path);
        now := rank;
        UnbindKeepsRanks(c, rank, n);
        ClearEffect(c, w, rank, path, n, ok);
        reply := Reply(ok, None, None, None);
      case Look(path) =>
        now := rank;
        var f, entries, res := LookAt(c, w, rank, SplitPath(path));
        reply := Reply(f.Some?, f, entries, res);
        LookEffect(c, w, rank, path, reply);
    }
  }

  /** Anything done with one of two namespaces that have nothing in common has just its own effect
      there, and leaves the other as it was, in its tree, its layers and its list of binds; and they
      still have nothing in common. */
  method Apply(
      c: Namespace, op: Change, w: World, ghost rank: map<Node, nat>, ghost other: Namespace, ghost ranks: map<Node, nat>)
      returns (reply: Reply, ghost now: map<Node, nat>)
    requires Apart(c, other) && RankedBy(c, rank) && RankedBy(other, ranks)
    modifies c, c.at.Keys, c.owned
    ensures Apart(c, other) && RankedBy(c, now) && RankedBy(other, ranks)
    ensures fresh(c.at.Keys - old(c.at.Keys)) && fresh(c.owned - old(c.owned))
    ensures Does(old(ShotOf(c, rank)), op, w, ShotOf(c, now), reply)
    ensures other.at == old(other.at) && other.owned == old(other.owned)
    ensures ShotOf(other, ranks) == old(ShotOf(other, ranks))
    ensures forall v :: other.Nodes(v) == old(other.Nodes(v))
    ensures TableOf(other) == old(TableOf(other))
  {
    hide Namespace.TreeShaped, Namespace.LayersOwned, Namespace.Holds, Namespace.Nodes, RankedBy, TableOf, ShotOf,
         Does;
    reply, now := Do(c, op, w, rank);
  }

  // ----- any number of changes -----

  /** One thing done with the original or with its copy. */
  datatype Step = Step(inCopy: bool, what: Done)

  /** What was done on one side, in order. */
  function Own(steps: seq<Step>, inCopy: bool): seq<Done>
  {
    if steps == [] then []
    else
      var last := steps[|steps| - 1];
      Own(steps[..|steps| - 1], inCopy) + if last.inCopy == inCopy then [last.what] else []
  }

  lemma GivesNone(x: Shot)
    ensures Gives(x, [], [], [x], x)
  {
  }

  lemma GivesNext(x: Shot, ops: seq<Done>, replies: seq<Reply>, trace: seq<Shot>, y: Shot, what: Done, z: Shot, reply: Reply)
    requires Gives(x, ops, replies, trace, y) && Does(y, what.op, what.w, z, reply)
    ensures Gives(x, ops + [what], replies + [reply], trace + [z], z)
  {
    hide Does;
  }

  lemma OwnNext(steps: seq<Step>, k: nat)
    requires k < |steps|
    ensures Own(steps[..k + 1], steps[k].inCopy) == Own(steps[..k], steps[k].inCopy) + [steps[k].what]
    ensures Own(steps[..k + 1], !steps[k].inCopy) == Own(steps[..k], !steps[k].inCopy)
  {
    assert steps[..k + 1][..k] == steps[..k];
  }

  /** Any steps at all on two namespaces that have nothing in common, in any order: what each becomes,
      and what its callers are told, is what its own steps alone give. */
  method Run(a: Namespace, b: Namespace, steps: seq<Step>, ghost ra: map<Node, nat>, ghost rb: map<Node, nat>)
    returns (toldA: seq<Reply>, toldB: seq<Reply>, ghost sa: seq<Shot>, ghost sb: seq<Shot>,
             ghost rankA: map<Node, nat>, ghost rankB: map<Node, nat>)
    requires Apart(a, b) && RankedBy(a, ra) && RankedBy(b, rb)
    modifies a, a.at.Keys, a.owned, b, b.at.Keys, b.owned
    ensures Apart(a, b) && RankedBy(a, rankA) && RankedBy(b, rankB)
    ensures Gives(old(ShotOf(a, ra)), Own(steps, false), toldA, sa, ShotOf(a, rankA))
    ensures Gives(old(ShotOf(b, rb)), Own(steps, true), toldB, sb, ShotOf(b, rankB))
  {
    hide Namespace.TreeShaped, Namespace.LayersOwned, Namespace.Holds, Namespace.Nodes, RankedBy, TableOf, Does, Own,
         Gives, ShotOf;
    rankA, rankB := ra, rb;
    sa, sb, toldA, toldB := [ShotOf(a, ra)], [ShotOf(b, rb)], [], [];
    GivesNone(ShotOf(a, ra));
    GivesNone(ShotOf(b, rb));
    OwnNone(steps);
    var k := 0;
    while k < |steps|
      invariant 0 <= k <= |steps|
      invariant Apart(a, b) && RankedBy(a, rankA) && RankedBy(b, rankB)
      invariant fresh(a.at.Keys - old(a.at.Keys)) && fresh(a.owned - old(a.owned))
      invariant fresh(b.at.Keys - old(b.at.Keys)) && fresh(b.owned - old(b.owned))
      invariant Gives(old(ShotOf(a, ra)), Own(steps[..k], false), toldA, sa, ShotOf(a, rankA))
      invariant Gives(old(ShotOf(b, rb)), Own(steps[..k], true), toldB, sb, ShotOf(b, rankB))
    {
      var what := steps[k].what;
      OwnNext(steps, k);
      ghost var x, y := ShotOf(a, rankA), ShotOf(b, rankB);
      var reply;
      if steps[k].inCopy {
        reply, rankB := Apply(b, what.op, what.w, rankB, a, rankA);
        GivesNext(old(ShotOf(b, rb)), Own(steps[..k], true), toldB, sb, y, what, ShotOf(b, rankB), reply);
        sb, toldB := sb + [ShotOf(b, rankB)], toldB + [reply];
      } else {
        reply, rankA := Apply(a, what.op, what.w, rankA, b, rankB);
        GivesNext(old(ShotOf(a, ra)), Own(steps[..k], false), toldA, sa, x, what, ShotOf(a, rankA), reply);
        sa, toldA := sa + [ShotOf(a, rankA)], toldA + [reply];
      }
      k := k + 1;
    }
    assert steps[..k] == steps;
  }

  lemma OwnNone(steps: seq<Step>)
    ensures forall side :: Own(steps[..0], side) == []
  {
  }

  // ----- a clone and its original -----

  predicate NodeStateCopied(a: NodeState, b: NodeState, m: map<Node, Node>)
  {
    && b.hash == a.hash && b.children.Keys == a.children.Keys
    && (forall k | k in a.children :: a.children[k] in m && b.children[k] == m[a.children[k]])
    && |b.layers| == |a.layers|
    && forall i | 0 <= i < |a.layers| ::
         var f := a.layers[i].resolved;
         b.layers[i] == a.layers[i].(resolved := if f.Some? then Some(RemapFile(f.value, m)) else None)
  }

  /** y is x over other nodes: path for path, layer for layer, with what was captured remapped. */
  ghost predicate ShotCopied(x: Shot, m: map<Node, Node>, y: Shot)
  {
    && x.nodes.Keys == x.at.Keys == m.Keys && y.nodes.Keys == y.at.Keys == m.Values
    && Injective(m) && m.Keys !! m.Values && x.root in m && y.root == m[x.root]
    && y.user == x.user && y.hash == x.hash && y.seqNo == x.seqNo
    && forall n | n in m :: y.at[m[n]] == x.at[n] && NodeStateCopied(x.nodes[n], y.nodes[m[n]], m)
  }

  lemma CopiedNodeState(n: Node, c: Node, m: map<Node, Node>)
    requires NodeCopied(n, c, m)
    ensures NodeStateCopied(NodeState(n.children, StatesOf(n.layers), n.pathHash),
                            NodeState(c.children, StatesOf(c.layers), c.pathHash), m)
  {
    hide RemapFile;
    assert forall i | 0 <= i < |n.layers| :: LayerCopy(n.layers[i], c.layers[i], m);
  }

  lemma CloneShot(ns: Namespace, m: map<Node, Node>, c: Namespace, rank: map<Node, nat>, rank2: map<Node, nat>)
    requires ns.Valid() && c.Valid() && CopyOfNamespace(ns, m, c)
    ensures ShotCopied(ShotOf(ns, rank), m, ShotOf(c, rank2))
  {
    hide Namespace.LayersOwned, Namespace.Holds, Namespace.HasParent, NodeCopied, NodeStateCopied, StatesOf;
    var x, y := ShotOf(ns, rank), ShotOf(c, rank2);
    forall n | n in m
      ensures m[n] in c.at && NodeStateCopied(x.nodes[n], y.nodes[m[n]], m)
    {
      assert m[n] in m.Values;
      CopiedNodeState(n, m[n], m);
    }
  }

  lemma ShotTable(ns: Namespace, rank: map<Node, nat>)
    requires ns.Valid()
    ensures Whole(ShotOf(ns, rank)) && TableIn(ShotOf(ns, rank)) == TableOf(ns)
  {
    hide Namespace.LayersOwned, Namespace.Holds, Namespace.HasParent, Whole, TableIn, TableOf, LayerState.Root;
    ShotWhole(ns, rank);
    Keys(ShotOf(ns, rank));
    var x := ShotOf(ns, rank);
    forall n | n in ns.at
      ensures InfosIn(x.nodes[n].layers) == InfosOf(n.layers)
    {
    }
    var t := TableOf(ns);
    forall p | p in t
      ensures HasPathIn(x, p)
    {
      var n :| n in ns.at && ns.at[n] == p && n.layers != [];
      assert x.at[n] == p;
    }
    SameTable(x, t);
  }

  /** What a clone starts as: a copy with the same list of binds, giving each request what the original
      gives. */
  ghost predicate StartsAs(x: Shot, m: map<Node, Node>, y: Shot)
  {
    && ShotCopied(x, m, y) && OnePathEach(x) && OnePathEach(y) && TableIn(y) == TableIn(x)
    && forall v: World :: SameTo(x, m, y, v)
  }

  ghost predicate SameTo(x: Shot, m: map<Node, Node>, y: Shot, v: World)
  {
    Copied(NodesIn(x, v), m, NodesIn(y, v)) && NoneHidden(NodesIn(x, v))
  }

  /** A clone of a namespace that hides nothing, with ranks of its own. */
  method FreshClone(ns: Namespace, ghost rank: map<Node, nat>)
    returns (c: Namespace, ghost m: map<Node, Node>, ghost rank2: map<Node, nat>)
    requires ns.Valid() && RankedBy(ns, rank) && NothingHidden(ns)
    ensures fresh(c) && fresh(c.at.Keys) && fresh(c.owned) && Apart(ns, c) && RankedBy(c, rank2)
    ensures StartsAs(ShotOf(ns, rank), m, ShotOf(c, rank2))
  {
    hide Namespace.TreeShaped, Namespace.LayersOwned, Namespace.Holds, Namespace.Nodes, RankedBy, TableOf,
         CopyOfNamespace, NothingHidden, NoneHidden, Copied, CopySpace, Sound, ShotCopied, TableIn, NodesIn, Whole,
         OnePathEach, ShotOf, SameTo;
    c, m := Clone(ns);
    rank2 := CloneRanks(ns, m, c, rank);
    CloneShot(ns, m, c, rank, rank2);
    CloneTable(ns, m, c);
    ShotTable(ns, rank);
    ShotTable(c, rank2);
    Keys(ShotOf(ns, rank));
    Keys(ShotOf(c, rank2));
    forall v: World
      ensures SameTo(ShotOf(ns, rank), m, ShotOf(c, rank2), v)
    {
      CloneSameTo(ns, m, c, rank, rank2, v);
    }
  }

  lemma CloneSameTo(ns: Namespace, m: map<Node, Node>, c: Namespace, rank: map<Node, nat>, rank2: map<Node, nat>, v: World)
    requires ns.Valid() && c.Valid() && NothingHidden(ns) && Copied(ns.Nodes(v), m, c.Nodes(v))
    ensures SameTo(ShotOf(ns, rank), m, ShotOf(c, rank2), v)
  {
    hide Namespace.Valid, Namespace.Nodes, NothingHidden, NoneHidden, Copied, NodesIn;
    ShotNodes(ns, rank, v);
    ShotNodes(c, rank2, v);
    CapturesHide(ns, v);
  }

  /** A fresh clone of a namespace that hides nothing starts as a copy of it; from then on what either
      becomes, and what its callers are told, is what its own steps alone give. */
  method CloneAndRun(ns: Namespace, steps: seq<Step>, ghost rank: map<Node, nat>)
    returns (c: Namespace, told: seq<Reply>, toldCopy: seq<Reply>, ghost m: map<Node, Node>, ghost start: Shot,
             ghost sa: seq<Shot>, ghost sb: seq<Shot>, ghost rankA: map<Node, nat>, ghost rankB: map<Node, nat>)
    requires ns.Valid() && RankedBy(ns, rank) && NothingHidden(ns)
    modifies ns, ns.at.Keys, ns.owned
    ensures fresh(c) && Apart(ns, c) && RankedBy(ns, rankA) && RankedBy(c, rankB)
    ensures StartsAs(old(ShotOf(ns, rank)), m, start)
    ensures Gives(old(ShotOf(ns, rank)), Own(steps, false), told, sa, ShotOf(ns, rankA))
    ensures Gives(start, Own(steps, true), toldCopy, sb, ShotOf(c, rankB))
  {
    hide Namespace.TreeShaped, Namespace.LayersOwned, Namespace.Holds, RankedBy, NothingHidden, ShotOf, StartsAs, Own,
         Does, Gives;
    ghost var rank2;
    c, m, rank2 := FreshClone(ns, rank);
    start := ShotOf(c, rank2);
    told, toldCopy, sa, sb, rankA, rankB := Run(ns, c, steps, rank, rank2);
  }

  lemma CloneRanks(ns: Namespace, m: map<Node, Node>, c: Namespace, rank: map<Node, nat>) returns (rank2: map<Node, nat>)
    requires ns.Valid() && c.Valid() && RankedBy(ns, rank) && NothingHidden(ns)
    requires forall w :: Copied(ns.Nodes(w), m, c.Nodes(w))
    ensures RankedBy(c, rank2)
  {
    hide Namespace.TreeShaped, Namespace.LayersOwned, Namespace.Holds, Namespace.Nodes, RankedBy, NothingHidden,
         NoneHidden, Copied, CopySpace, Sound;
    var v := NoFiles();
    RankedNow(ns, rank, v);
    CapturesHide(ns, v);
    var s2 := CopyIsRanked(ns.SpaceOf(v, rank), m, c.Nodes(v));
    Sounds(ns.SpaceOf(v, rank), m, s2);
    rank2 := s2.rank;
    RankedBack(c, rank2, v);
  }

  lemma CloneTable(ns: Namespace, m: map<Node, Node>, c: Namespace)
    requires ns.Valid() && c.Valid() && CopyOfNamespace(ns, m, c)
    ensures TableOf(c) == TableOf(ns)
  {
    hide Namespace.TreeShaped, Namespace.LayersOwned, Namespace.Holds, TableOf, RemapFile;
    forall n | n in ns.at
      ensures m[n] in c.at && c.at[m[n]] == ns.at[n] && InfosOf(m[n].layers) == InfosOf(n.layers)
    {
      assert NodeCopied(n, m[n], m);
      assert forall i | 0 <= i < |n.layers| :: LayerCopy(n.layers[i], m[n].layers[i], m);
    }
    forall d | d in c.at
      ensures exists n | n in ns.at :: m[n] == d
    {
    }
    var t, u := TableOf(ns), TableOf(c);
    forall p
      ensures p in u <==> p in t
      ensures p in t ==> u[p] == t[p]
    {
      if p in t {
        var n :| n in ns.at && ns.at[n] == p && n.layers != [];
        assert |InfosOf(m[n].layers)| == |InfosOf(n.layers)|;
      }
      if p in u {
        var d :| d in c.at && c.at[d] == p && d.layers != [];
        var n :| n in ns.at && m[n] == d;
        assert |InfosOf(d.layers)| == |InfosOf(n.layers)|;
      }
    }
  }

  // ----- how something comes to be hidden -----

  predicate NoDotDot(path: Path)
  {
    forall i :: 0 <= i < |path| ==> path[i] != DOTDOT
  }

  /** The walk to a node of the tree, by its path, gives that node. */
  lemma {:induction false} WalkDown(ns: Namespace, w: World, s: Space<Node>, m: Node, n: Node)
    requires ns.Valid() && Sound(s) && s.nodes == ns.Nodes(w) && m in ns.at && n in ns.at
    requires ns.at[m] <= ns.at[n] && NoDotDot(ns.at[n])
    ensures WalkAll(w, s, Tree(m), ns.at[n][|ns.at[m]|..]) == Some(Tree(n))
    decreases |ns.at[n]| - |ns.at[m]|
  {
    hide Namespace.LayersOwned, Namespace.Holds, Namespace.HasParent, Sound;
    var rest := ns.at[n][|ns.at[m]|..];
    if m != n {
      BelowAChild(ns, m, n);
      var c := m.children[rest[0]];
      ChildPath(ns, m, rest[0]);
      assert Walk(w, s, Tree(m), rest[0]) == Some(Tree(c));
      assert rest[1..] == ns.at[n][|ns.at[c]|..];
      WalkDown(ns, w, s, c, n);
    }
  }

  lemma {:induction false} WalkOneMore<N>(w: World, s: Space<N>, f: File<N>, path: seq<Name>, k: Name)
    requires Sound(s) && Within(f, s.nodes)
    ensures WalkAll(w, s, f, path + [k]) == match WalkAll(w, s, f, path) case None => None case Some(c) => Walk(w, s, c, k)
    decreases |path|
  {
    hide Sound, Walk;
    if path == [] {
      assert path + [k] == [k] && [k][1..] == [];
    } else {
      assert (path + [k])[0] == path[0] && (path + [k])[1..] == path[1..] + [k];
      var next := Walk(w, s, f, path[0]);
      if next.Some? {
        WalkOneMore(w, s, next.value, path[1..], k);
      }
    }
  }

  /** Through a layer that leads back into the tree, a child is reached behind an nsFile. */
  lemma ThroughLayer<N>(w: World, s: Space<N>, d: N, n: N, k: Name)
    requires Sound(s) && d in s.nodes && s.nodes[d].layers != [] && s.nodes[d].layers[0].root == Some(Tree(n))
    requires k != DOTDOT && k !in s.nodes[d].children
    ensures n in s.nodes
    ensures k in s.nodes[n].children ==>
              && Walk(w, s, Tree(d), k) == Some(Real(Tree(s.nodes[n].children[k]), s.nodes[d].layers[0].dev))
              && Hides(Walk(w, s, Tree(d), k).value)
  {
    WithinLayer(s, d, 0);
    if k in s.nodes[n].children {
      assert Hit(w, s, d, 0, k) == Some(Tree(s.nodes[n].children[k]));
      assert Serving(w, s, d, k, 0) == 0;
    }
  }

  lemma NotThereYet(w: World, s: Space<Node>, at: map<Node, Path>, root: Node, srcs: seq<Name>, dst: Name)
    requires Sound(s) && forall e | e in at :: at[e] != SplitPath(dst)
    ensures !WouldCycle(w, s, at, root, srcs, dst)
  {
    hide SplitPath, WalkAll;
  }

  lemma BoundThere(before: map<Node, NodeView<Node>>, after: map<Node, NodeView<Node>>, d: Node, more: seq<LayerView<Node>>)
    requires BoundAt(before, after, d, more, Replace)
    ensures d in after && after[d].layers == more
  {
  }

  /** One path bound, by itself, where there was no node yet. */
  method BindOne(ns: Namespace, w: World, ghost rank: map<Node, nat>, src: Path, dst: Path, ghost f: File<Node>)
    returns (ghost d: Node, ghost now: map<Node, nat>)
    requires ns.Valid() && Sound(ns.SpaceOf(w, rank)) && Canonical(src) && Canonical(dst) && !ns.HasPath(dst)
    requires ns.root in ns.Nodes(w) && WalkAll(w, ns.SpaceOf(w, rank), Tree(ns.root), src) == Some(f)
    modifies ns, ns.at.Keys, ns.owned
    ensures ns.Valid() && Sound(ns.SpaceOf(w, now)) && ns.root in ns.Nodes(w)
    ensures d in ns.at && ns.at[d] == dst && d in ns.Nodes(w)
    ensures ns.Nodes(w)[d].layers != [] && ns.Nodes(w)[d].layers[0].root == Some(f)
    ensures forall m | m in old(ns.at) :: m in ns.at && ns.at[m] == old(ns.at)[m]
    ensures forall q :: ns.HasPath(q) <==> old(ns.HasPath(q)) || IsPrefix(q, dst)
    ensures fresh(ns.at.Keys - old(ns.at.Keys)) && fresh(ns.owned - old(ns.owned))
  {
    hide Namespace.TreeShaped, Namespace.LayersOwned, Namespace.Holds, Namespace.Nodes, Ranked, Closed, WouldCycle,
         BoundAt, Grew, Views, SplitPath, WalkAll;
    ghost var s := ns.SpaceOf(w, rank);
    SplitUndoesPrinting(src);
    SplitUndoesPrinting(dst);
    assert forall e | e in ns.at :: ns.at[e] != dst by {
      assert forall e | e in ns.at :: ns.HasPath(ns.at[e]);
    }
    var srcs := [PathText(src)];
    assert Namespace.AllFound(w, s, ns.root, srcs);
    label binding:
    var ok, n, ls := ns.BindPath(w, rank, srcs, PathText(dst), Some(Replace), false);
    d := n;
    NodesClosed(ns, w);
    CapturedHold(ns, ls, w, s, srcs, old@binding(ns.seqNo), false);
    OnlyAt@binding(ns, w, s, n, dst);
    NotThereYet(w, s, old@binding(ns.at), ns.root, srcs, PathText(dst));
    PathBindKeepsRanks(w, s, old@binding(ns.at), ns.root, srcs, PathText(dst), false, ns.Nodes(w), n, Views(ls, w), Replace);
    now :| Ranked(ns.Nodes(w), now);
    BoundThere(s.nodes, ns.Nodes(w), d, Views(ls, w));
    ns.GrewNot(w);
  }

  lemma LeadsHidden(ns: Namespace, w: World, n: Node, i: nat)
    requires ns.Valid() && n in ns.at && n in ns.Nodes(w) && i < |ns.Nodes(w)[n].layers|
    requires ns.Nodes(w)[n].layers[i].root.Some? && Hides(ns.Nodes(w)[n].layers[i].root.value)
    ensures !NothingHidden(ns)
  {
    hide Namespace.TreeShaped, Namespace.LayersOwned, Namespace.Holds, NothingHidden;
    ns.NodeView(w, n);
    LayerLeads(ns, n, i, w);
    HiddenCore(ns.Nodes(w)[n].layers[i].root.value);
    assert n.layers[i] in n.layers && n.layers[i].resolved == ns.Nodes(w)[n].layers[i].root;
    HiddenHere(ns, n, n.layers[i]);
  }

  lemma HiddenHere(ns: Namespace, n: Node, l: Layer)
    requires ns.Valid() && n in ns.at && l in n.layers && l.resolved.Some? && Hides(l.resolved.value)
    ensures !NothingHidden(ns)
  {
    hide Namespace.Valid;
  }

  lemma ChildAt(ns: Namespace, w: World, n: Node, k: Name)
    requires ns.Valid() && n in ns.at
    ensures n in ns.Nodes(w) && (k in ns.Nodes(w)[n].children <==> ns.HasPath(ns.at[n] + [k]))
  {
    hide Namespace.LayersOwned, Namespace.Holds, Namespace.HasParent;
    ns.NodeView(w, n);
    if ns.HasPath(ns.at[n] + [k]) {
      var m :| m in ns.at && ns.at[m] == ns.at[n] + [k];
      ns.PathIsTaken(n, k, m);
    } else if k in n.children {
      ns.ChildIsHere(n, k);
    }
  }

  lemma NodeAt(ns: Namespace, path: Path, k: Name) returns (n: Node)
    requires ns.Valid() && ns.HasPath(path + [k])
    ensures n in ns.at && ns.at[n] == path
  {
    assert (path + [k])[..|path|] == path;
    ns.AncestorHere(path + [k], |path|);
    n :| n in ns.at && ns.at[n] == path;
  }

  lemma FromRoot(ns: Namespace, w: World, s: Space<Node>, n: Node)
    requires ns.Valid() && Sound(s) && s.nodes == ns.Nodes(w) && n in ns.at && NoDotDot(ns.at[n])
    ensures ns.root in s.nodes && WalkAll(w, s, Tree(ns.root), ns.at[n]) == Some(Tree(n))
  {
    hide Namespace.LayersOwned, Namespace.Holds, Namespace.HasParent, WalkAll;
    WalkDown(ns, w, s, ns.root, n);
    assert ns.at[n][0..] == ns.at[n];
  }

  /** Below a path that had no node there was none before either. */
  lemma NotBelow(ns: Namespace, path: Path, k: Name)
    requires ns.Valid() && !ns.HasPath(path)
    ensures !ns.HasPath(path + [k]) && !IsPrefix(path + [k], path)
  {
    if ns.HasPath(path + [k]) {
      assert (path + [k])[..|path|] == path;
      ns.AncestorHere(path + [k], |path|);
    }
  }

  /** Bind a directory of the tree at a new path, then bind a child of it, reached through that path,
      anywhere new: the second layer hides a node of the tree. */
  method TwoPathBindsHide(
      ns: Namespace, w: World, ghost rank: map<Node, nat>, src: Path, k: Name, dst: Path, dst2: Path)
    requires ns.Valid() && RankedBy(ns, rank)
    requires Canonical(src) && Canonical(dst + [k]) && Canonical(dst) && Canonical(dst2)
    requires NoDotDot(src) && NoDotDot(dst) && k != DOTDOT
    requires ns.HasPath(src + [k]) && !ns.HasPath(dst) && !ns.HasPath(dst2) && !IsPrefix(dst2, dst)
    modifies ns, ns.at.Keys, ns.owned
    ensures ns.Valid() && !NothingHidden(ns)
  {
    hide Namespace.TreeShaped, Namespace.LayersOwned, Namespace.Holds, Namespace.Nodes, Ranked, Closed, NothingHidden,
         WalkAll, Walk, Hides, Canonical;
    RankedNow(ns, rank, w);
    ghost var s := ns.SpaceOf(w, rank);
    ghost var a := NodeAt(ns, src, k);
    FromRoot(ns, w, s, a);
    NotBelow(ns, dst, k);
    ghost var d, now := BindOne(ns, w, rank, src, dst, Tree(a));
    ghost var s2 := ns.SpaceOf(w, now);
    ChildAt(ns, w, d, k);
    ChildAt(ns, w, a, k);
    FromRoot(ns, w, s2, d);
    ThroughLayer(w, s2, d, a, k);
    WalkOneMore(w, s2, Tree(ns.root), dst, k);
    ghost var f := Walk(w, s2, Tree(d), k).value;
    ghost var e, later := BindOne(ns, w, now, dst + [k], dst2, f);
    LeadsHidden(ns, w, e, 0);
  }
}
