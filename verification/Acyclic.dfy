/** When the layers of a bind tree form no cycle: what each change to the tree does to that, and what
    it means for walks to end (ns/ns.go, ns/file.go). */
module Acyclic {
  import opened Bytes
  import opened Names
  import opened BindGraph
  import opened Messages

  datatype Disposition = Replace | Before | After

  /** A layer list with more layers put in. */
  function Spliced<L>(have: seq<L>, more: seq<L>, disp: Disposition): seq<L>
  {
    match disp
    case Replace => more
    case Before => more + have
    case After => have + more
  }

  function WithLayers<N>(nodes: map<N, NodeView<N>>, d: N, layers: seq<LayerView<N>>): map<N, NodeView<N>>
    requires d in nodes
  {
    nodes[d := nodes[d].(layers := layers)]
  }

  function Bound<N>(nodes: map<N, NodeView<N>>, d: N, more: seq<LayerView<N>>, disp: Disposition): map<N, NodeView<N>>
    requires d in nodes
  {
    WithLayers(nodes, d, Spliced(nodes[d].layers, more, disp))
  }

  /** The node layer i of n leads to, if any. */
  function Target<N>(nodes: map<N, NodeView<N>>, n: N, i: nat): Option<N>
    requires n in nodes && i < |nodes[n].layers|
  {
    match nodes[n].layers[i].root case None => None case Some(f) => Core(f)
  }

  /** n is t, or a layer of n leads to a node that reaches t. */
  ghost predicate Reaches<N>(nodes: map<N, NodeView<N>>, rank: map<N, nat>, n: N, t: N)
    requires Closed(nodes) && Ranked(nodes, rank) && n in nodes
    decreases rank[n]
  {
    n == t || exists i | 0 <= i < |nodes[n].layers| ::
      Target(nodes, n, i).Some? && Reaches(nodes, rank, Target(nodes, n, i).value, t)
  }

  ghost predicate LayerReaches<N>(nodes: map<N, NodeView<N>>, rank: map<N, nat>, l: LayerView<N>, t: N)
    requires Closed(nodes) && Ranked(nodes, rank)
  {
    && l.root.Some? && Core(l.root.value).Some? && Core(l.root.value).value in nodes
    && Reaches(nodes, rank, Core(l.root.value).value, t)
  }

  predicate LayersWithin<N>(ls: seq<LayerView<N>>, nodes: map<N, NodeView<N>>)
  {
    forall i | 0 <= i < |ls| :: ls[i].root.Some? ==> Within(ls[i].root.value, nodes)
  }

  /** A rank above every one of the layers. */
  function Above<N>(ls: seq<LayerView<N>>, rank: map<N, nat>): (k: nat)
    ensures forall i | 0 <= i < |ls| :: ls[i].root.Some? ==> Height(ls[i].root.value, rank) <= k
  {
    if ls == [] then 0
    else
      var rest := Above(ls[1..], rank);
      var first := if ls[0].root.Some? then Height(ls[0].root.value, rank) else 0;
      assert forall i | 1 <= i < |ls| :: ls[i] == ls[1..][i - 1];
      if first > rest then first else rest
  }

  /** The ranks after a bind at d: everything that leads to d moves above what d now leads to. */
  ghost function Lifted<N>(nodes: map<N, NodeView<N>>, rank: map<N, nat>, d: N, more: seq<LayerView<N>>): (r: map<N, nat>)
    requires Closed(nodes) && Ranked(nodes, rank)
  {
    map n | n in nodes :: if Reaches(nodes, rank, n, d) then rank[n] + Above(more, rank) else rank[n]
  }

  lemma LiftedRanks<N>(nodes: map<N, NodeView<N>>, rank: map<N, nat>, d: N, more: seq<LayerView<N>>, disp: Disposition)
    requires Closed(nodes) && Ranked(nodes, rank) && d in nodes && LayersWithin(more, nodes)
    requires forall i | 0 <= i < |more| :: !LayerReaches(nodes, rank, more[i], d)
    ensures Ranked(Bound(nodes, d, more, disp), Lifted(nodes, rank, d, more))
  {
    hide Reaches, Above;
    var after, r := Bound(nodes, d, more, disp), Lifted(nodes, rank, d, more);
    assert Reaches(nodes, rank, d, d) by { ReachesItself(nodes, rank, d); }
    forall n, i | n in nodes && 0 <= i < |nodes[n].layers| && nodes[n].layers[i].root.Some?
      ensures Height(nodes[n].layers[i].root.value, r) <= r[n]
    {
      if Target(nodes, n, i).Some? {
        ReachesVia(nodes, rank, n, i, d);
      }
    }
    forall i | 0 <= i < |more| && more[i].root.Some?
      ensures Height(more[i].root.value, r) <= r[d]
    {
      assert !LayerReaches(nodes, rank, more[i], d);
    }
    forall n, i | n in after && 0 <= i < |after[n].layers| && after[n].layers[i].root.Some?
      ensures Height(after[n].layers[i].root.value, r) <= r[n]
    {
      if n == d {
        assert after[d].layers[i] in nodes[d].layers || after[d].layers[i] in more;
      }
    }
  }

  lemma ReachesItself<N>(nodes: map<N, NodeView<N>>, rank: map<N, nat>, d: N)
    requires Closed(nodes) && Ranked(nodes, rank) && d in nodes
    ensures Reaches(nodes, rank, d, d)
  {
  }

  lemma ReachesVia<N>(nodes: map<N, NodeView<N>>, rank: map<N, nat>, n: N, i: nat, t: N)
    requires Closed(nodes) && Ranked(nodes, rank) && n in nodes && i < |nodes[n].layers|
    requires Target(nodes, n, i).Some?
    ensures Target(nodes, n, i).value in nodes && rank[Target(nodes, n, i).value] < rank[n]
    ensures Reaches(nodes, rank, Target(nodes, n, i).value, t) ==> Reaches(nodes, rank, n, t)
  {
  }

  /** Any ranking of the tree after a bind at d still puts what leads to d at or above d. */
  lemma {:induction false} ReachersStayAbove<N>(
      nodes: map<N, NodeView<N>>, rank: map<N, nat>, d: N, more: seq<LayerView<N>>, disp: Disposition, r: map<N, nat>, n: N)
    requires Closed(nodes) && Ranked(nodes, rank) && d in nodes && n in nodes
    requires Ranked(Bound(nodes, d, more, disp), r) && Reaches(nodes, rank, n, d)
    ensures r[d] <= r[n]
    decreases rank[n]
  {
    if n != d {
      var i :| 0 <= i < |nodes[n].layers| && Target(nodes, n, i).Some? && Reaches(nodes, rank, Target(nodes, n, i).value, d);
      ReachersStayAbove(nodes, rank, d, more, disp, r, Target(nodes, n, i).value);
      var after := Bound(nodes, d, more, disp);
      assert after[n].layers == nodes[n].layers;
      assert Height(after[n].layers[i].root.value, r) <= r[n];
    }
  }

  /** A bind keeps the layers acyclic exactly when d is not layer-reachable from what it adds. */
  lemma BindKeepsAcyclic<N>(nodes: map<N, NodeView<N>>, rank: map<N, nat>, d: N, more: seq<LayerView<N>>, disp: Disposition)
    requires Closed(nodes) && Ranked(nodes, rank) && d in nodes && LayersWithin(more, nodes)
    ensures (exists r: map<N, nat> :: Ranked(Bound(nodes, d, more, disp), r))
       <==> forall i | 0 <= i < |more| :: !LayerReaches(nodes, rank, more[i], d)
  {
    hide Reaches, Ranked, Closed;
    var after := Bound(nodes, d, more, disp);
    if forall i | 0 <= i < |more| :: !LayerReaches(nodes, rank, more[i], d) {
      LiftedRanks(nodes, rank, d, more, disp);
    } else {
      var i :| 0 <= i < |more| && LayerReaches(nodes, rank, more[i], d);
      forall r: map<N, nat> | Ranked(after, r)
        ensures false
      {
        NewLayerRanked(nodes, d, more, disp, r, i);
        ReachersStayAbove(nodes, rank, d, more, disp, r, Core(more[i].root.value).value);
      }
    }
  }

  lemma NewLayerRanked<N>(
      nodes: map<N, NodeView<N>>, d: N, more: seq<LayerView<N>>, disp: Disposition, r: map<N, nat>, i: nat)
    requires d in nodes && i < |more| && more[i].root.Some? && Ranked(Bound(nodes, d, more, disp), r)
    requires Within(more[i].root.value, nodes)
    ensures d in r && Height(more[i].root.value, r) <= r[d]
    ensures Core(more[i].root.value).Some? ==> Height(more[i].root.value, r) == r[Core(more[i].root.value).value] + 1
  {
    var after := Bound(nodes, d, more, disp);
    var at := if disp == After then |nodes[d].layers| + i else i;
    assert after[d].layers[at] == more[i];
  }

  /** Binding a filesystem adds no layer edge, so it never makes a cycle. */
  lemma FilesystemsReachNothing<N>(nodes: map<N, NodeView<N>>, rank: map<N, nat>, l: LayerView<N>, d: N)
    requires Closed(nodes) && Ranked(nodes, rank)
    requires l.root.Some? ==> Core(l.root.value) == None
    ensures !LayerReaches(nodes, rank, l, d)
  {
  }

  /** Binding a path onto itself does. */
  lemma SelfBindIsCyclic<N>(nodes: map<N, NodeView<N>>, rank: map<N, nat>, d: N, l: LayerView<N>, disp: Disposition)
    requires Closed(nodes) && Ranked(nodes, rank) && d in nodes
    requires l.root.Some? && Core(l.root.value) == Some(d)
    ensures forall r: map<N, nat> :: !Ranked(Bound(nodes, d, [l], disp), r)
  {
    hide Reaches, Ranked, Closed;
    ReachesItself(nodes, rank, d);
    assert LayerReaches(nodes, rank, [l][0], d);
    BindKeepsAcyclic(nodes, rank, d, [l], disp);
  }

  /** Removing layers keeps any ranking. */
  lemma UnbindKeepsAcyclic<N>(nodes: map<N, NodeView<N>>, rank: map<N, nat>, d: N)
    requires Closed(nodes) && Ranked(nodes, rank) && d in nodes
    ensures Closed(WithLayers(nodes, d, [])) && Ranked(WithLayers(nodes, d, []), rank)
  {
  }

  /** Nodes were added below the tree, with no layers; nothing that was there changed. */
  predicate Grew<N>(before: map<N, NodeView<N>>, after: map<N, NodeView<N>>)
  {
    && before.Keys <= after.Keys
    && (forall n | n in before ::
          && after[n].layers == before[n].layers && after[n].hash == before[n].hash
          && (forall k | k in before[n].children ::
                k in after[n].children && after[n].children[k] == before[n].children[k])
          && (forall k | k in after[n].children ::
                k in before[n].children || after[n].children[k] !in before))
    && (forall n | n in after :: n in before || after[n].layers == [])
  }

  function LayersAt<N>(nodes: map<N, NodeView<N>>, d: N): seq<LayerView<N>>
  {
    if d in nodes then nodes[d].layers else []
  }

  /** The effect of a bind: the nodes of the path are made, then layers spliced in at its end. */
  predicate BoundAt<N>(
    before: map<N, NodeView<N>>, after: map<N, NodeView<N>>, d: N, more: seq<LayerView<N>>, disp: Disposition)
  {
    && d in after && after[d].layers == Spliced(LayersAt(before, d), more, disp)
    && Grew(before, WithLayers(after, d, LayersAt(before, d)))
  }

  function Extended<N>(rank: map<N, nat>, after: map<N, NodeView<N>>): map<N, nat>
  {
    map n | n in after :: if n in rank then rank[n] else 0
  }

  /** Making the nodes of a path adds no layer edge. */
  lemma GrowthKeepsAcyclic<N>(before: map<N, NodeView<N>>, after: map<N, NodeView<N>>, rank: map<N, nat>)
    requires Closed(before) && Ranked(before, rank) && Grew(before, after)
    ensures Ranked(after, Extended(rank, after))
  {
    forall n, i | n in after && 0 <= i < |after[n].layers| && after[n].layers[i].root.Some?
      ensures Height(after[n].layers[i].root.value, Extended(rank, after)) <= Extended(rank, after)[n]
    {
      assert n in before && before[n].layers[i].root.Some?;
      assert Within(before[n].layers[i].root.value, before);
    }
  }

  /** In a tree that has only grown, old nodes reach what they reached, and no new node. */
  lemma {:induction false} ReachesAfterGrowth<N>(
      before: map<N, NodeView<N>>, after: map<N, NodeView<N>>, rank: map<N, nat>, n: N, d: N)
    requires Closed(before) && Ranked(before, rank) && Grew(before, after) && Closed(after) && n in before
    requires Ranked(after, Extended(rank, after))
    ensures Reaches(after, Extended(rank, after), n, d) <==> d in before && Reaches(before, rank, n, d)
    decreases rank[n]
  {
    hide Closed, Ranked, Grew;
    SameLayers(before, after, n);
    if n != d {
      forall i | 0 <= i < |before[n].layers| && Target(before, n, i).Some?
        ensures var m := Target(before, n, i).value;
                && Target(after, n, i) == Target(before, n, i) && m in before && m in after
                && (Reaches(after, Extended(rank, after), m, d) <==> d in before && Reaches(before, rank, m, d))
      {
        ReachesVia(before, rank, n, i, d);
        ReachesVia(after, Extended(rank, after), n, i, d);
        ReachesAfterGrowth(before, after, rank, Target(before, n, i).value, d);
      }
    }
  }

  lemma SameLayers<N>(before: map<N, NodeView<N>>, after: map<N, NodeView<N>>, n: N)
    requires Grew(before, after) && n in before
    ensures n in after && after[n].layers == before[n].layers
  {
  }

  /** A bind at a path, nodes and all, keeps the layers acyclic exactly when the node at that path was
      not there before or was not layer-reachable from what is bound. */
  lemma BindAtKeepsAcyclic<N>(
      before: map<N, NodeView<N>>, after: map<N, NodeView<N>>, rank: map<N, nat>, d: N, more: seq<LayerView<N>>,
      disp: Disposition)
    requires Closed(before) && Ranked(before, rank) && Closed(after) && LayersWithin(more, before)
    requires BoundAt(before, after, d, more, disp)
    ensures (exists r: map<N, nat> :: Ranked(after, r))
       <==> forall i | 0 <= i < |more| :: !(d in before && LayerReaches(before, rank, more[i], d))
  {
    hide Ranked, Grew, Reaches;
    var grown := WithLayers(after, d, LayersAt(before, d));
    assert Bound(grown, d, more, disp) == after by {
      if d in before {
        SameLayers(before, grown, d);
      }
    }
    GrownIsClosed(before, after, d);
    GrowthKeepsAcyclic(before, grown, rank);
    var rank2 := Extended(rank, grown);
    forall i | 0 <= i < |more|
      ensures LayerReaches(grown, rank2, more[i], d) <==> d in before && LayerReaches(before, rank, more[i], d)
    {
      if more[i].root.Some? && Core(more[i].root.value).Some? {
        var c := Core(more[i].root.value).value;
        assert c in before && c in grown by {
          SameLayers(before, grown, c);
        }
        ReachesAfterGrowth(before, grown, rank, c, d);
      }
    }
    StillWithin(more, before, grown);
    BindKeepsAcyclic(grown, rank2, d, more, disp);
  }

  lemma StillWithin<N>(ls: seq<LayerView<N>>, before: map<N, NodeView<N>>, after: map<N, NodeView<N>>)
    requires LayersWithin(ls, before) && Grew(before, after)
    ensures LayersWithin(ls, after)
  {
  }

  lemma GrownIsClosed<N>(before: map<N, NodeView<N>>, after: map<N, NodeView<N>>, d: N)
    requires Closed(before) && Closed(after) && d in after && Grew(before, WithLayers(after, d, LayersAt(before, d)))
    ensures Closed(WithLayers(after, d, LayersAt(before, d)))
  {
    var grown := WithLayers(after, d, LayersAt(before, d));
    forall n, i | n in grown && 0 <= i < |grown[n].layers| && grown[n].layers[i].root.Some?
      ensures Within(grown[n].layers[i].root.value, grown)
    {
      if n == d {
        assert d in before && Within(before[d].layers[i].root.value, before);
      } else {
        assert Within(after[n].layers[i].root.value, after);
      }
    }
  }

  // ----- what the ranks are for -----

  datatype Answer<N> = Unfinished | Missing | Found(f: File<N>)

  function AsAnswer<N>(r: Option<File<N>>): Answer<N>
  {
    match r case None => Missing case Some(f) => Found(f)
  }

  /** Walk with a bound on how many layer edges are followed, on any tree. */
  function BoundedWalk<N>(w: World, nodes: map<N, NodeView<N>>, fuel: nat, f: File<N>, name: Name): (a: Answer<N>)
    requires Closed(nodes) && Within(f, nodes)
    ensures a.Found? ==> Within(a.f, nodes)
    decreases fuel, 0, f
  {
    match f
    case Base(id) => (match w.walk(id, name) case None => Missing case Some(c) => Found(Base(c)))
    case Real(inner, dev) =>
      (match BoundedWalk(w, nodes, fuel, inner, name) case Found(c) => Found(Real(c, dev)) case other => other)
    case ReadOnly(inner) =>
      (match BoundedWalk(w, nodes, fuel, inner, name) case Found(c) => Found(WrapReadOnly(c)) case other => other)
    case Tree(n) =>
      if name == DOTDOT then Missing
      else if name in nodes[n].children then Found(Tree(nodes[n].children[name]))
      else if fuel == 0 then (if nodes[n].layers == [] then Missing else Unfinished)
      else BoundedLayers(w, nodes, fuel - 1, n, 0, name)
  }

  function BoundedLayers<N>(w: World, nodes: map<N, NodeView<N>>, fuel: nat, n: N, i: nat, name: Name): (a: Answer<N>)
    requires Closed(nodes) && n in nodes && i <= |nodes[n].layers|
    ensures a.Found? ==> Within(a.f, nodes)
    decreases fuel, 1, |nodes[n].layers| - i
  {
    if i == |nodes[n].layers| then Missing
    else if nodes[n].layers[i].root == None then BoundedLayers(w, nodes, fuel, n, i + 1, name)
    else match BoundedWalk(w, nodes, fuel, nodes[n].layers[i].root.value, name)
      case Found(c) => Found(Real(c, nodes[n].layers[i].dev))
      case Unfinished => Unfinished
      case Missing => BoundedLayers(w, nodes, fuel, n, i + 1, name)
  }

  /** With ranks every walk ends, within as many layer edges as the file is high, and it is Walk:
      so the choice of ranks never shows in an answer. */
  lemma {:induction false} RankedWalksEnd<N>(w: World, s: Space<N>, fuel: nat, f: File<N>, name: Name)
    requires Sound(s) && Within(f, s.nodes) && Height(f, s.rank) <= fuel
    ensures BoundedWalk(w, s.nodes, fuel, f, name) == AsAnswer(Walk(w, s, f, name))
    decreases fuel, 0, f
  {
    match f {
      case Base(id) =>
      case Real(inner, dev) => RankedWalksEnd(w, s, fuel, inner, name);
      case ReadOnly(inner) => RankedWalksEnd(w, s, fuel, inner, name);
      case Tree(n) =>
        assert s.rank[n] <= fuel - 1;
        if name != DOTDOT && name !in s.nodes[n].children {
          RankedLayersEnd(w, s, fuel - 1, n, 0, name);
        }
    }
  }

  lemma {:induction false} RankedLayersEnd<N>(w: World, s: Space<N>, fuel: nat, n: N, i: nat, name: Name)
    requires Sound(s) && n in s.nodes && s.rank[n] <= fuel && i <= |s.nodes[n].layers|
    ensures var k := Serving(w, s, n, name, i);
            BoundedLayers(w, s.nodes, fuel, n, i, name)
            == if k == |s.nodes[n].layers| then Missing
               else Found(Real(Hit(w, s, n, k, name).value, s.nodes[n].layers[k].dev))
    decreases fuel, 1, |s.nodes[n].layers| - i
  {
    if i < |s.nodes[n].layers| {
      if s.nodes[n].layers[i].root.Some? {
        RankedWalksEnd(w, s, fuel, s.nodes[n].layers[i].root.value, name);
      }
      RankedLayersEnd(w, s, fuel, n, i + 1, name);
    }
  }

  // ----- without ranks some walk never ends -----

  ghost predicate NeverFinds<N>(w: World, nodes: map<N, NodeView<N>>, f: File<N>, name: Name)
    requires Closed(nodes) && Within(f, nodes)
  {
    forall fuel: nat :: !BoundedWalk(w, nodes, fuel, f, name).Found?
  }

  /** Layer i of n leads back into the round, and no layer before it ever finds the name. */
  ghost predicate LeadsRound<N>(w: World, nodes: map<N, NodeView<N>>, round: set<N>, n: N, i: nat, name: Name)
    requires Closed(nodes) && n in nodes
  {
    && i < |nodes[n].layers| && Target(nodes, n, i).Some? && Target(nodes, n, i).value in round
    && forall j | 0 <= j < i :: nodes[n].layers[j].root.Some? ==> NeverFinds(w, nodes, nodes[n].layers[j].root.value, name)
  }

  /** Every node of the round leads back into it before the name is found anywhere. */
  ghost predicate Encircles<N>(w: World, nodes: map<N, NodeView<N>>, round: set<N>, name: Name)
    requires Closed(nodes)
  {
    && name != DOTDOT
    && forall n | n in round ::
         n in nodes && name !in nodes[n].children && exists i: nat :: LeadsRound(w, nodes, round, n, i, name)
  }

  lemma RoundStep<N>(w: World, nodes: map<N, NodeView<N>>, round: set<N>, n: N, name: Name) returns (i: nat)
    requires Closed(nodes) && Encircles(w, nodes, round, name) && n in round
    ensures n in nodes && name !in nodes[n].children && name != DOTDOT && LeadsRound(w, nodes, round, n, i, name)
  {
    hide LeadsRound, Closed;
    i :| LeadsRound(w, nodes, round, n, i, name);
  }

  lemma RoundLayer<N>(w: World, nodes: map<N, NodeView<N>>, round: set<N>, n: N, i: nat, name: Name)
    requires Closed(nodes) && n in nodes && LeadsRound(w, nodes, round, n, i, name)
    ensures i < |nodes[n].layers| && nodes[n].layers[i].root.Some?
    ensures Within(nodes[n].layers[i].root.value, nodes)
    ensures Core(nodes[n].layers[i].root.value).Some? && Core(nodes[n].layers[i].root.value).value in round
  {
    hide NeverFinds;
  }

  lemma RoundPasses<N>(w: World, nodes: map<N, NodeView<N>>, round: set<N>, fuel: nat, n: N, i: nat, at: nat, name: Name)
    requires Closed(nodes) && n in nodes && LeadsRound(w, nodes, round, n, i, name) && at < i
    requires nodes[n].layers[at].root.Some?
    ensures Within(nodes[n].layers[at].root.value, nodes)
    ensures !BoundedWalk(w, nodes, fuel, nodes[n].layers[at].root.value, name).Found?
  {
    hide BoundedWalk;
    assert NeverFinds(w, nodes, nodes[n].layers[at].root.value, name);
  }

  /** On such nodes the walk to the name never ends. */
  lemma {:induction false} LoopingWalkNeverEnds<N>(
      w: World, nodes: map<N, NodeView<N>>, round: set<N>, fuel: nat, f: File<N>, name: Name)
    requires Closed(nodes) && Encircles(w, nodes, round, name) && Core(f).Some? && Core(f).value in round
    ensures Within(f, nodes) && BoundedWalk(w, nodes, fuel, f, name) == Unfinished
    decreases fuel, 1, 0, f
  {
    hide Closed, Encircles, LeadsRound;
    var i := RoundStep(w, nodes, round, Core(f).value, name);
    RoundLayer(w, nodes, round, Core(f).value, i, name);
    match f {
      case Real(inner, dev) => LoopingWalkNeverEnds(w, nodes, round, fuel, inner, name);
      case ReadOnly(inner) => LoopingWalkNeverEnds(w, nodes, round, fuel, inner, name);
      case Tree(n) =>
        if fuel > 0 {
          LoopingLayersNeverEnd(w, nodes, round, fuel - 1, n, 0, i, name);
        }
    }
  }

  lemma {:induction false} LoopingLayersNeverEnd<N>(
      w: World, nodes: map<N, NodeView<N>>, round: set<N>, fuel: nat, n: N, at: nat, i: nat, name: Name)
    requires Closed(nodes) && Encircles(w, nodes, round, name) && n in nodes && at <= i < |nodes[n].layers|
    requires LeadsRound(w, nodes, round, n, i, name)
    ensures BoundedLayers(w, nodes, fuel, n, at, name) == Unfinished
    decreases fuel, 2, i - at
  {
    hide Closed, Encircles, LeadsRound, BoundedWalk;
    if at == i {
      RoundLayer(w, nodes, round, n, i, name);
      LoopingWalkNeverEnds(w, nodes, round, fuel, nodes[n].layers[i].root.value, name);
    } else {
      if nodes[n].layers[at].root.Some? {
        RoundPasses(w, nodes, round, fuel, n, i, at, name);
      }
      LoopingLayersNeverEnd(w, nodes, round, fuel, n, at + 1, i, name);
    }
  }

  ghost predicate LeadsInto<N>(nodes: map<N, NodeView<N>>, n: N, to: set<N>)
    requires n in nodes
  {
    exists i | 0 <= i < |nodes[n].layers| :: Target(nodes, n, i).Some? && Target(nodes, n, i).value in to
  }

  /** Nodes each of which has some layer leading to another of them. */
  ghost predicate Loops<N>(nodes: map<N, NodeView<N>>, round: set<N>)
  {
    forall n | n in round :: n in nodes && LeadsInto(nodes, n, round)
  }

  /** Ranks below top, given to nodes whose layers lead only to nodes ranked lower. */
  ghost predicate RankedSoFar<N>(nodes: map<N, NodeView<N>>, rank: map<N, nat>, top: nat)
  {
    && rank.Keys <= nodes.Keys
    && (forall n | n in rank :: rank[n] < top)
    && forall n | n in rank :: forall i | 0 <= i < |nodes[n].layers| && Target(nodes, n, i).Some? ::
         Target(nodes, n, i).value in rank && rank[Target(nodes, n, i).value] < rank[n]
  }

  lemma RankNext<N>(nodes: map<N, NodeView<N>>, rank: map<N, nat>, top: nat, n: N)
    requires Closed(nodes) && RankedSoFar(nodes, rank, top) && n in nodes && n !in rank
    requires !LeadsInto(nodes, n, nodes.Keys - rank.Keys)
    ensures RankedSoFar(nodes, rank[n := top], top + 1)
  {
    forall i | 0 <= i < |nodes[n].layers| && Target(nodes, n, i).Some?
      ensures Target(nodes, n, i).value in rank
    {
      assert Within(nodes[n].layers[i].root.value, nodes);
    }
  }

  lemma AllRanked<N>(nodes: map<N, NodeView<N>>, rank: map<N, nat>, top: nat)
    requires RankedSoFar(nodes, rank, top) && rank.Keys == nodes.Keys
    ensures Ranked(nodes, rank)
  {
    forall n, i | n in nodes && 0 <= i < |nodes[n].layers| && nodes[n].layers[i].root.Some?
      ensures Height(nodes[n].layers[i].root.value, rank) <= rank[n]
    {
      if Target(nodes, n, i).Some? {
        assert rank[Target(nodes, n, i).value] < rank[n];
      }
    }
  }

  /** Taking off, again and again, a node none of whose layers leads to a node still there either ranks
      the whole tree or leaves a loop. */
  lemma RanksOrLoops<N>(nodes: map<N, NodeView<N>>) returns (rank: map<N, nat>, left: set<N>)
    requires Closed(nodes)
    ensures left <= nodes.Keys && if left == {} then Ranked(nodes, rank) else Loops(nodes, left)
  {
    hide Closed, RankedSoFar, Ranked, LeadsInto;
    rank, left := map[], nodes.Keys;
    var top: nat := 0;
    NoneRanked(nodes);
    while !Loops(nodes, left)
      invariant left <= nodes.Keys && rank.Keys == nodes.Keys - left
      invariant RankedSoFar(nodes, rank, top)
      decreases left
    {
      var n :| n in left && !LeadsInto(nodes, n, left);
      assert left == nodes.Keys - rank.Keys;
      RankNext(nodes, rank, top, n);
      rank, left, top := rank[n := top], left - {n}, top + 1;
    }
    if left == {} {
      AllRanked(nodes, rank, top);
    }
  }

  lemma NoneRanked<N>(nodes: map<N, NodeView<N>>)
    ensures RankedSoFar(nodes, map[], 0)
  {
  }

  /** A world whose filesystems have nothing. */
  function NoFiles(): World
  {
    World((id, name) => None, id => None, id => Qid(0, 0, 0), id => None, i => None, false)
  }

  ghost function Longest(names: set<Name>): (k: nat)
    ensures forall x | x in names :: |x| <= k
  {
    if names == {} then 0
    else
      var x :| x in names;
      var rest := Longest(names - {x});
      assert forall y | y in names :: y == x || y in names - {x};
      if |x| > rest then |x| else rest
  }

  /** Some name no node has as a child. */
  lemma NameNoNodeHas<N>(nodes: map<N, NodeView<N>>) returns (name: Name)
    ensures name != DOTDOT && forall n | n in nodes :: name !in nodes[n].children
  {
    var used := set n, k | n in nodes && k in nodes[n].children :: k;
    name := seq(Longest(used) + 3, i => 0);
    forall n | n in nodes
      ensures name !in nodes[n].children
    {
      assert forall k | k in nodes[n].children :: k in used;
    }
  }

  lemma {:induction false} NothingToFind<N>(nodes: map<N, NodeView<N>>, fuel: nat, f: File<N>, name: Name)
    requires Closed(nodes) && Within(f, nodes)
    requires forall n | n in nodes :: name !in nodes[n].children
    ensures !BoundedWalk(NoFiles(), nodes, fuel, f, name).Found?
    decreases fuel, 0, f
  {
    match f {
      case Base(id) =>
      case Real(inner, dev) => NothingToFind(nodes, fuel, inner, name);
      case ReadOnly(inner) => NothingToFind(nodes, fuel, inner, name);
      case Tree(n) =>
        if name != DOTDOT && fuel > 0 {
          NothingInLayers(nodes, fuel - 1, n, 0, name);
        }
    }
  }

  lemma {:induction false} NothingInLayers<N>(nodes: map<N, NodeView<N>>, fuel: nat, n: N, i: nat, name: Name)
    requires Closed(nodes) && n in nodes && i <= |nodes[n].layers|
    requires forall m | m in nodes :: name !in nodes[m].children
    ensures !BoundedLayers(NoFiles(), nodes, fuel, n, i, name).Found?
    decreases fuel, 1, |nodes[n].layers| - i
  {
    if i < |nodes[n].layers| {
      if nodes[n].layers[i].root.Some? {
        NothingToFind(nodes, fuel, nodes[n].layers[i].root.value, name);
      }
      NothingInLayers(nodes, fuel, n, i + 1, name);
    }
  }

  ghost predicate WalkEnds<N>(w: World, nodes: map<N, NodeView<N>>, n: N, name: Name)
    requires Closed(nodes) && n in nodes
  {
    exists fuel: nat :: BoundedWalk(w, nodes, fuel, Tree(n), name) != Unfinished
  }

  /** A tree that loops, however the loop runs through its layers, has a walk that never ends. */
  lemma LoopHasEndlessWalk<N>(nodes: map<N, NodeView<N>>, round: set<N>, n: N) returns (name: Name)
    requires Closed(nodes) && Loops(nodes, round) && n in round
    ensures !WalkEnds(NoFiles(), nodes, n, name)
  {
    hide BoundedWalk, Closed, Encircles;
    name := NameNoNodeHas(nodes);
    LoopEncircles(nodes, round, name);
    forall fuel: nat
      ensures BoundedWalk(NoFiles(), nodes, fuel, Tree(n), name) == Unfinished
    {
      LoopingWalkNeverEnds(NoFiles(), nodes, round, fuel, Tree(n), name);
    }
  }

  lemma LoopEncircles<N>(nodes: map<N, NodeView<N>>, round: set<N>, name: Name)
    requires Closed(nodes) && Loops(nodes, round) && name != DOTDOT
    requires forall n | n in nodes :: name !in nodes[n].children
    ensures Encircles(NoFiles(), nodes, round, name)
  {
    hide Closed, LeadsRound;
    assert forall n | n in round :: LeadsInto(nodes, n, round);
    forall n | n in round
      ensures n in nodes && name !in nodes[n].children && exists i: nat :: LeadsRound(NoFiles(), nodes, round, n, i, name)
    {
      var i: nat :| i < |nodes[n].layers| && Target(nodes, n, i).Some? && Target(nodes, n, i).value in round;
      NothingBefore(nodes, round, n, i, name);
    }
  }

  lemma NothingBefore<N>(nodes: map<N, NodeView<N>>, round: set<N>, n: N, i: nat, name: Name)
    requires Closed(nodes) && n in nodes && i < |nodes[n].layers|
    requires Target(nodes, n, i).Some? && Target(nodes, n, i).value in round
    requires forall m | m in nodes :: name !in nodes[m].children
    ensures LeadsRound(NoFiles(), nodes, round, n, i, name)
  {
    hide BoundedWalk, NeverFinds;
    forall j | 0 <= j < i && nodes[n].layers[j].root.Some?
      ensures NeverFinds(NoFiles(), nodes, nodes[n].layers[j].root.value, name)
    {
      NeverFound(nodes, nodes[n].layers[j].root.value, name);
    }
  }

  lemma NeverFound<N>(nodes: map<N, NodeView<N>>, f: File<N>, name: Name)
    requires Closed(nodes) && Within(f, nodes)
    requires forall m | m in nodes :: name !in nodes[m].children
    ensures NeverFinds(NoFiles(), nodes, f, name)
  {
    hide BoundedWalk;
    forall fuel: nat
      ensures !BoundedWalk(NoFiles(), nodes, fuel, f, name).Found?
    {
      NothingToFind(nodes, fuel, f, name);
    }
  }

  /** Every walk ends, whatever the filesystems hold, exactly when the tree has ranks. */
  lemma WalksEndIffRanked<N>(nodes: map<N, NodeView<N>>)
    requires Closed(nodes)
    ensures (exists rank: map<N, nat> :: Ranked(nodes, rank))
       <==> forall w: World, n: N, name: Name | n in nodes :: WalkEnds(w, nodes, n, name)
  {
    hide Closed, Ranked, BoundedWalk, Loops;
    if rank: map<N, nat> :| Ranked(nodes, rank) {
      forall w: World, n: N, name: Name | n in nodes
        ensures WalkEnds(w, nodes, n, name)
      {
        RankedWalksEnd(w, Space(nodes, [], rank), Height(Tree(n), rank), Tree(n), name);
      }
    } else {
      var rank, left := RanksOrLoops(nodes);
      var n :| n in left;
      var name := LoopHasEndlessWalk(nodes, left, n);
      assert !WalkEnds(NoFiles(), nodes, n, name);
    }
  }
}
