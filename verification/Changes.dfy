/** What each operation does to a namespace, as a relation between what it was and what it is: the
    tree with its paths, every layer as it stands, and the layer counter (ns/ns.go). */
module Changes {
  import opened Bytes
  import opened Messages
  import opened Names
  import opened Paths
  import opened BindGraph
  import opened Acyclic
  import opened Namespaces
  import opened Resolving
  import opened Replay

  datatype NodeState = NodeState(children: map<Name, Node>, layers: seq<LayerState>, hash: uint64)

  /** A namespace at one moment, with ranks for its nodes. */
  datatype Shot = Shot(
    root: Node, user: Name, hash: Path -> uint64, at: map<Node, Path>, nodes: map<Node, NodeState>, seqNo: nat,
    rank: map<Node, nat>)

  /** What can be done with a namespace: bind a filesystem or paths, unbind, or walk to a path, list
      what is there and resolve it. */
  datatype Change =
    | GraftFS(fs: nat, subpath: Name, dst: Name, disp: Option<Disposition>, spec: Name, ro: bool)
    | GraftPath(srcs: seq<Name>, dst: Name, disp: Option<Disposition>, ro: bool)
    | Clear(path: Name)
    | Look(path: Name)

  function ViewsIn(ls: seq<LayerState>, w: World): (r: seq<LayerView<Node>>)
    ensures |r| == |ls|
  {
    seq(|ls|, i requires 0 <= i < |ls| => LayerView(ls[i].Root(w), ls[i].Dev(), ls[i].number, ls[i].ro, ls[i].spec))
  }

  /** The tree as a request in some world would see it. */
  function NodesIn(x: Shot, w: World): map<Node, NodeView<Node>>
  {
    map n | n in x.nodes :: NodeView(x.nodes[n].children, ViewsIn(x.nodes[n].layers, w), x.nodes[n].hash)
  }

  function SpaceIn(x: Shot, w: World): Space<Node>
  {
    Space(NodesIn(x, w), x.user, x.rank)
  }

  predicate IsParent(x: Shot, p: Node, k: Name, n: Node)
    requires p in x.at && n in x.at && p in x.nodes
  {
    k in x.nodes[p].children && x.nodes[p].children[k] == n
  }

  predicate HasParentIn(x: Shot, n: Node)
    requires x.nodes.Keys == x.at.Keys && n in x.at && x.at[n] != []
  {
    var k := x.at[n][|x.at[n]| - 1];
    exists p | p in x.at :: x.at[n] == x.at[p] + [k] && IsParent(x, p, k, n)
  }

  predicate OnePathEach(x: Shot)
  {
    && x.nodes.Keys == x.at.Keys
    && forall n, m | n in x.at && m in x.at && x.at[n] == x.at[m] :: n == m
  }

  /** The paths determine the edges of the tree and the hashes. */
  predicate Whole(x: Shot)
  {
    && OnePathEach(x) && x.root in x.at && x.at[x.root] == []
    && (forall n, k | n in x.nodes && k in x.nodes[n].children ::
          x.nodes[n].children[k] in x.at && x.at[x.nodes[n].children[k]] == x.at[n] + [k])
    && (forall n | n in x.at && x.at[n] != [] :: HasParentIn(x, n))
    && (forall n | n in x.nodes :: x.nodes[n].hash == x.hash(x.at[n]))
  }

  predicate HasPathIn(x: Shot, q: Path)
  {
    exists n | n in x.at :: x.at[n] == q
  }

  /** A layer as it was; or, if requests in a world have gone through it, now perhaps holding what it
      led to in that world. */
  predicate Follows(a: LayerState, seen: Option<World>, b: LayerState)
  {
    && b == a.(resolved := b.resolved)
    && (a.resolved.Some? || seen == None ==> b.resolved == a.resolved)
    && (seen.Some? ==> b.Root(seen.value) == a.Root(seen.value))
  }

  predicate AllFollow(xs: seq<LayerState>, seen: Option<World>, ys: seq<LayerState>)
  {
    |ys| == |xs| && forall i | 0 <= i < |xs| :: Follows(xs[i], seen, ys[i])
  }

  ghost predicate SameNamespace(x: Shot, y: Shot)
  {
    y.root == x.root && y.user == x.user && y.hash == x.hash
  }

  /** Nothing was made, moved or bound. */
  predicate Settled(x: Shot, seen: Option<World>, y: Shot)
  {
    && y.at == x.at && y.nodes.Keys == x.nodes.Keys
    && forall n | n in x.nodes ::
         y.nodes[n].children == x.nodes[n].children && AllFollow(x.nodes[n].layers, seen, y.nodes[n].layers)
  }

  /** The missing nodes of the path were made, the layers put in at its end, and that was all. */
  ghost predicate Put(x: Shot, seen: Option<World>, y: Shot, path: Path, ls: seq<LayerState>, disp: Option<Disposition>)
    requires x.nodes.Keys == x.at.Keys && y.nodes.Keys == y.at.Keys
  {
    && (forall q :: HasPathIn(y, q) <==> HasPathIn(x, q) || IsPrefix(q, path))
    && (forall n | n in x.at :: n in y.at && y.at[n] == x.at[n])
    && forall n | n in y.at ::
         var was := if n in x.at then x.nodes[n].layers else [];
         AllFollow(if y.at[n] == path && disp.Some? then Spliced(was, ls, disp.value) else was, seen, y.nodes[n].layers)
  }

  /** What is bound at the path is gone, and that was all. */
  predicate Cleared(x: Shot, y: Shot, path: Path)
    requires x.nodes.Keys == x.at.Keys && y.nodes.Keys == y.at.Keys
  {
    && y.at == x.at
    && forall n | n in x.at ::
         y.nodes[n].children == x.nodes[n].children && y.nodes[n].layers == if x.at[n] == path then [] else x.nodes[n].layers
  }

  ghost predicate FileReaches(s: Space<Node>, f: File<Node>, d: Node)
    requires Sound(s)
  {
    Core(f).Some? && Core(f).value in s.nodes && Reaches(s.nodes, s.rank, Core(f).value, d)
  }

  /** The node at dst is there already, and is layer-reachable from what one of the sources gives. */
  ghost predicate WouldCycle(w: World, s: Space<Node>, at: map<Node, Path>, root: Node, srcs: seq<Name>, dst: Name)
    requires Sound(s)
  {
    && Namespace.AllFound(w, s, root, srcs)
    && exists d, i | d in at && 0 <= i < |srcs| ::
         at[d] == SplitPath(dst) && FileReaches(s, WalkAll(w, s, Tree(root), SplitPath(srcs[i])).value, d)
  }

  /** One layer for each source, holding what the walk to it gives. */
  ghost function Captured(w: World, s: Space<Node>, root: Node, srcs: seq<Name>, before: nat, ro: bool)
    : (ls: seq<LayerState>)
    requires Sound(s) && Namespace.AllFound(w, s, root, srcs)
    ensures |ls| == |srcs|
  {
    seq(|srcs|, i requires 0 <= i < |srcs| =>
      var f := WalkAll(w, s, Tree(root), SplitPath(srcs[i])).value;
      LayerState(None, [], Some(if ro then ReadOnly(f) else f), srcs[i], before + i + 1, ro))
  }

  ghost predicate PathsBound(x: Shot, w: World, srcs: seq<Name>, dst: Name, disp: Option<Disposition>, ro: bool, y: Shot)
    requires Whole(x) && Whole(y) && Sound(SpaceIn(x, w))
  {
    var s := SpaceIn(x, w);
    if disp.Some? && WouldCycle(w, s, x.at, x.root, srcs, dst) then
      y.seqNo == x.seqNo && Settled(x, Some(w), y)
    else
      && y.seqNo == x.seqNo + Namespace.FirstMissing(w, s, x.root, srcs, 0)
      && if srcs != [] && Namespace.AllFound(w, s, x.root, srcs) then
           Put(x, Some(w), y, SplitPath(dst), Captured(w, s, x.root, srcs, x.seqNo, ro), disp)
         else Settled(x, Some(w), y)
  }

  /** What an operation in a world makes of x. A path bind that would close a cycle is left out. */
  ghost predicate Effect(x: Shot, op: Change, w: World, y: Shot)
  {
    && Whole(x) && Whole(y) && SameNamespace(x, y) && Sound(SpaceIn(x, w)) && Sound(SpaceIn(y, w))
    && match op
       case GraftFS(fs, subpath, dst, disp, spec, ro) =>
         && y.seqNo == x.seqNo + 1
         && Put(x, None, y, SplitPath(dst), [LayerState(Some(fs), SplitPath(subpath), None, spec, y.seqNo, ro)], disp)
       case GraftPath(srcs, dst, disp, ro) => PathsBound(x, w, srcs, dst, disp, ro, y)
       case Clear(path) => y.seqNo == x.seqNo && Cleared(x, y, SplitPath(path))
       case Look(_) => y.seqNo == x.seqNo && Settled(x, Some(w), y)
  }

  /** What the caller is told: whether it was done; for a look, the file walked to, what it lists and
      how the path resolves. */
  datatype Reply = Reply(ok: bool, file: Option<File<Node>>, entries: Option<seq<Stat>>, res: Option<Resolution>)

  ghost predicate IsBound(x: Shot, path: Path)
  {
    exists n | n in x.at && n in x.nodes :: x.at[n] == path && x.nodes[n].layers != []
  }

  ghost function ReplyIn(x: Shot, op: Change, w: World): Reply
    requires Sound(SpaceIn(x, w)) && x.root in x.nodes
  {
    var s := SpaceIn(x, w);
    match op
    case GraftFS(_, _, _, disp, _, _) => Reply(disp.Some?, None, None, None)
    case GraftPath(srcs, dst, disp, _) =>
      Reply(srcs != [] && disp.Some? && Namespace.AllFound(w, s, x.root, srcs) && !WouldCycle(w, s, x.at, x.root, srcs, dst),
            None, None, None)
    case Clear(path) => Reply(IsBound(x, SplitPath(path)), None, None, None)
    case Look(path) =>
      var f := WalkAll(w, s, Tree(x.root), SplitPath(path));
      Reply(f.Some?, f, if f.Some? then List(w, s, f.value) else None, ResolveFrom(w, s, x.root, SplitPath(path), 0))
  }

  ghost predicate Does(x: Shot, op: Change, w: World, y: Shot, reply: Reply)
  {
    Effect(x, op, w, y) && reply == ReplyIn(x, op, w)
  }

  /** One operation, in the world of that moment. */
  datatype Done = Done(op: Change, w: World)

  /** These operations, told these replies, lead from x to y through the states of the trace. */
  ghost predicate Gives(x: Shot, ops: seq<Done>, replies: seq<Reply>, trace: seq<Shot>, y: Shot)
  {
    && |trace| == |ops| + 1 && |replies| == |ops| && trace[0] == x && trace[|ops|] == y
    && forall i | 0 <= i < |ops| :: Does(trace[i], ops[i].op, ops[i].w, trace[i + 1], replies[i])
  }

  // ----- the list of binds -----

  function InfosIn(ls: seq<LayerState>): (r: seq<Info>)
    ensures |r| == |ls|
  {
    seq(|ls|, i requires 0 <= i < |ls| => Info(ls[i].spec, ls[i].ro, ls[i].number, ls[i].Dev()))
  }

  /** What is bound at every path. */
  ghost function TableIn(x: Shot): (t: Table)
    requires OnePathEach(x)
    ensures forall n | n in x.at :: x.nodes[n].layers != [] <==> x.at[n] in t
    ensures forall n | n in x.at && x.nodes[n].layers != [] :: t[x.at[n]] == InfosIn(x.nodes[n].layers)
    ensures forall p | p in t :: exists n | n in x.at :: x.at[n] == p && x.nodes[n].layers != []
  {
    map n | n in x.at && x.nodes[n].layers != [] :: x.at[n] := InfosIn(x.nodes[n].layers)
  }

  function WithInfos(t: Table, path: Path, more: seq<Info>, disp: Disposition): Table
  {
    t[path := Spliced(if path in t then t[path] else [], more, disp)]
  }

  /** What an operation makes of the list of binds, if it is done. */
  function TableAfter(t: Table, op: Change, before: nat): Table
  {
    match op
    case GraftFS(_, _, dst, disp, spec, ro) =>
      if disp == None then t
      else WithInfos(t, SplitPath(dst), [Info(spec, ro, before + 1, (before + 1) % 0x1_0000_0000)], disp.value)
    case GraftPath(srcs, dst, disp, ro) =>
      if disp == None then t
      else
        var more := seq(|srcs|, i requires 0 <= i < |srcs| => Info(srcs[i], ro, before + i + 1, 0));
        WithInfos(t, SplitPath(dst), more, disp.value)
    case Clear(path) => t - {SplitPath(path)}
    case Look(_) => t
  }

  lemma SameInfos(xs: seq<LayerState>, seen: Option<World>, ys: seq<LayerState>)
    requires AllFollow(xs, seen, ys)
    ensures InfosIn(ys) == InfosIn(xs)
  {
    hide LayerState.Root;
  }

  lemma InfosSplice(a: seq<LayerState>, b: seq<LayerState>, disp: Disposition)
    ensures InfosIn(Spliced(a, b, disp)) == Spliced(InfosIn(a), InfosIn(b), disp)
  {
  }

  lemma SettledTable(x: Shot, seen: Option<World>, y: Shot)
    requires Whole(x) && Whole(y) && Settled(x, seen, y)
    ensures TableIn(y) == TableIn(x)
  {
    hide InfosIn, AllFollow, Whole;
    Keys(x);
    Keys(y);
    forall n | n in x.at
      ensures InfosIn(y.nodes[n].layers) == InfosIn(x.nodes[n].layers)
    {
      SameInfos(x.nodes[n].layers, seen, y.nodes[n].layers);
    }
    SameTable(y, TableIn(x));
  }

  lemma Keys(x: Shot)
    requires Whole(x)
    ensures OnePathEach(x) && x.root in x.nodes
  {
  }

  /** A table is known by what it has for each node. */
  lemma SameTable(y: Shot, t: Table)
    requires Whole(y) && forall n | n in y.at :: (y.at[n] in t <==> InfosIn(y.nodes[n].layers) != [])
    requires forall n | n in y.at && y.at[n] in t :: t[y.at[n]] == InfosIn(y.nodes[n].layers)
    requires forall p | p in t :: HasPathIn(y, p)
    ensures TableIn(y) == t
  {
    hide InfosIn, Whole, TableIn;
    Keys(y);
    var u := TableIn(y);
    forall p
      ensures p in u <==> p in t
      ensures p in t ==> u[p] == t[p]
    {
      if p in t {
        assert HasPathIn(y, p);
        var n :| n in y.at && y.at[n] == p;
        assert |InfosIn(y.nodes[n].layers)| == |y.nodes[n].layers|;
      }
      if p in u {
        var n :| n in y.at && y.at[n] == p && y.nodes[n].layers != [];
        assert |InfosIn(y.nodes[n].layers)| == |y.nodes[n].layers|;
      }
    }
  }

  lemma PutInfos(x: Shot, seen: Option<World>, y: Shot, path: Path, ls: seq<LayerState>, disp: Option<Disposition>, n: Node)
    requires Whole(x) && Whole(y) && x.nodes.Keys == x.at.Keys && y.nodes.Keys == y.at.Keys
    requires Put(x, seen, y, path, ls, disp) && n in y.at
    ensures var t := TableIn(x);
            var was := if y.at[n] in t then t[y.at[n]] else [];
            InfosIn(y.nodes[n].layers)
            == if y.at[n] == path && disp.Some? then Spliced(was, InfosIn(ls), disp.value) else was
  {
    hide InfosIn, AllFollow, Whole, Spliced, IsPrefix, HasPathIn, TableIn;
    WasInfos(x, y, n);
    var was := if n in x.at then x.nodes[n].layers else [];
    SameInfos(if y.at[n] == path && disp.Some? then Spliced(was, ls, disp.value) else was, seen, y.nodes[n].layers);
    if disp.Some? {
      InfosSplice(was, ls, disp.value);
    }
  }

  lemma PutTable(x: Shot, seen: Option<World>, y: Shot, path: Path, ls: seq<LayerState>, disp: Option<Disposition>)
    requires Whole(x) && Whole(y) && Put(x, seen, y, path, ls, disp) && ls != []
    ensures TableIn(y) == if disp.Some? then WithInfos(TableIn(x), path, InfosIn(ls), disp.value) else TableIn(x)
  {
    hide InfosIn, AllFollow, Whole, Spliced, TableIn;
    Keys(x);
    Keys(y);
    var t := TableIn(x);
    var after := if disp.Some? then WithInfos(t, path, InfosIn(ls), disp.value) else t;
    assert HasPathIn(y, path);
    if disp.Some? {
      SplicedHas(if path in t then t[path] else [], InfosIn(ls), disp.value);
    }
    TableNonempty(x);
    forall n | n in y.at
      ensures y.at[n] in after <==> InfosIn(y.nodes[n].layers) != []
      ensures y.at[n] in after ==> after[y.at[n]] == InfosIn(y.nodes[n].layers)
    {
      PutInfos(x, seen, y, path, ls, disp, n);
    }
    forall p | p in t
      ensures HasPathIn(y, p)
    {
      assert HasPathIn(x, p);
    }
    SameTable(y, after);
  }

  lemma TableNonempty(x: Shot)
    requires Whole(x)
    ensures forall p | p in TableIn(x) :: TableIn(x)[p] != []
  {
    forall p | p in TableIn(x)
      ensures TableIn(x)[p] != []
    {
      var n :| n in x.at && x.at[n] == p && x.nodes[n].layers != [];
      assert |InfosIn(x.nodes[n].layers)| == |x.nodes[n].layers|;
    }
  }

  lemma SplicedHas(a: seq<Info>, b: seq<Info>, disp: Disposition)
    requires b != []
    ensures Spliced(a, b, disp) != []
  {
  }

  /** What the table has at a node's path, whether or not the node is new. */
  lemma WasInfos(x: Shot, y: Shot, n: Node)
    requires Whole(x) && Whole(y) && n in y.at && forall m | m in x.at :: m in y.at && y.at[m] == x.at[m]
    ensures InfosIn(if n in x.at then x.nodes[n].layers else [])
         == if y.at[n] in TableIn(x) then TableIn(x)[y.at[n]] else []
  {
    var t := TableIn(x);
    if y.at[n] in t {
      var m :| m in x.at && x.at[m] == y.at[n] && x.nodes[m].layers != [];
      assert m == n;
    }
  }

  lemma CapturedInfos(w: World, s: Space<Node>, root: Node, srcs: seq<Name>, before: nat, ro: bool)
    requires Sound(s) && Namespace.AllFound(w, s, root, srcs)
    ensures InfosIn(Captured(w, s, root, srcs, before, ro))
         == seq(|srcs|, i requires 0 <= i < |srcs| => Info(srcs[i], ro, before + i + 1, 0))
  {
    hide Sound, WalkAll, SplitPath;
  }

  lemma ClearedTable(x: Shot, y: Shot, path: Path)
    requires Whole(x) && Whole(y) && Cleared(x, y, path)
    ensures TableIn(y) == TableIn(x) - {path} && (IsBound(x, path) <==> path in TableIn(x))
  {
    hide InfosIn, Whole, TableIn;
    Keys(x);
    Keys(y);
    NoInfos();
    var t := TableIn(x);
    forall n | n in x.at
      ensures |InfosIn(x.nodes[n].layers)| == |x.nodes[n].layers| && |InfosIn(y.nodes[n].layers)| == |y.nodes[n].layers|
    {
    }
    forall p | p in t
      ensures HasPathIn(y, p)
    {
    }
    SameTable(y, t - {path});
  }

  lemma NoInfos()
    ensures InfosIn([]) == []
  {
  }

  /** Every operation does to the list of binds what its name says if it succeeds, and nothing if not. */
  lemma DoesToTable(x: Shot, op: Change, w: World, y: Shot, reply: Reply)
    requires Does(x, op, w, y, reply)
    ensures OnePathEach(x) && OnePathEach(y)
    ensures TableIn(y) == if reply.ok then TableAfter(TableIn(x), op, x.seqNo) else TableIn(x)
  {
    hide InfosIn, Whole, TableIn, Put, Settled, Cleared, Captured, WithInfos, WouldCycle, Sound, WalkAll, SplitPath,
         Namespace.AllFound, List, ResolveFrom, IsBound, PathsBound, OnePathEach;
    Keys(x);
    Keys(y);
    match op {
      case GraftFS(fs, subpath, dst, disp, spec, ro) =>
        FSToTable(x, fs, subpath, dst, disp, spec, ro, y);
      case GraftPath(srcs, dst, disp, ro) =>
        PathsToTable(x, w, srcs, dst, disp, ro, y);
      case Clear(path) =>
        ClearedTable(x, y, SplitPath(path));
      case Look(_) =>
        SettledTable(x, Some(w), y);
    }
  }

  lemma FSToTable(x: Shot, fs: nat, subpath: Name, dst: Name, disp: Option<Disposition>, spec: Name, ro: bool, y: Shot)
    requires Whole(x) && Whole(y)
    requires Put(x, None, y, SplitPath(dst), [LayerState(Some(fs), SplitPath(subpath), None, spec, x.seqNo + 1, ro)], disp)
    ensures TableIn(y) == TableAfter(TableIn(x), GraftFS(fs, subpath, dst, disp, spec, ro), x.seqNo)
    ensures disp == None ==> TableIn(y) == TableIn(x)
  {
    hide InfosIn, Whole, TableIn, Put, WithInfos, SplitPath;
    var l := LayerState(Some(fs), SplitPath(subpath), None, spec, x.seqNo + 1, ro);
    PutTable(x, None, y, SplitPath(dst), [l], disp);
    OneInfo(l);
  }

  lemma OneInfo(l: LayerState)
    ensures InfosIn([l]) == [Info(l.spec, l.ro, l.number, l.Dev())]
  {
  }

  lemma PathsToTable(x: Shot, w: World, srcs: seq<Name>, dst: Name, disp: Option<Disposition>, ro: bool, y: Shot)
    requires Whole(x) && Whole(y) && Sound(SpaceIn(x, w)) && x.root in SpaceIn(x, w).nodes
    requires PathsBound(x, w, srcs, dst, disp, ro, y)
    ensures TableIn(y) == if ReplyIn(x, GraftPath(srcs, dst, disp, ro), w).ok
                          then TableAfter(TableIn(x), GraftPath(srcs, dst, disp, ro), x.seqNo) else TableIn(x)
  {
    hide InfosIn, Whole, TableIn, Put, Settled, Captured, WithInfos, WouldCycle, Sound, WalkAll, SplitPath,
         Namespace.AllFound;
    var s := SpaceIn(x, w);
    if disp.Some? && WouldCycle(w, s, x.at, x.root, srcs, dst) {
      SettledTable(x, Some(w), y);
    } else if srcs != [] && Namespace.AllFound(w, s, x.root, srcs) {
      PutTable(x, Some(w), y, SplitPath(dst), Captured(w, s, x.root, srcs, x.seqNo, ro), disp);
      CapturedInfos(w, s, x.root, srcs, x.seqNo, ro);
    } else {
      SettledTable(x, Some(w), y);
    }
  }

  // ----- a namespace as it stands -----

  ghost function StatesOf(ls: seq<Layer>): (r: seq<LayerState>)
    reads ls
    ensures |r| == |ls|
  {
    seq(|ls|, i requires 0 <= i < |ls| reads ls => ls[i].State())
  }

  ghost function ShotOf(ns: Namespace, rank: map<Node, nat>): Shot
    requires ns.Shaped()
    reads ns, ns.at.Keys, ns.owned
  {
    Shot(ns.root, ns.user, ns.hash, ns.at,
         map n | n in ns.at :: NodeState(n.children, StatesOf(n.layers), n.pathHash), ns.seqNo, rank)
  }

  lemma ShotWhole(ns: Namespace, rank: map<Node, nat>)
    requires ns.Valid()
    ensures Whole(ShotOf(ns, rank))
  {
    hide Namespace.LayersOwned, Namespace.Holds, Namespace.HasParent, HasParentIn, StatesOf;
    var x := ShotOf(ns, rank);
    forall n | n in x.at && x.at[n] != []
      ensures HasParentIn(x, n)
    {
      ParentInShot(ns, rank, n);
    }
  }

  lemma ParentInShot(ns: Namespace, rank: map<Node, nat>, n: Node)
    requires ns.Valid() && n in ns.at && ns.at[n] != []
    ensures HasParentIn(ShotOf(ns, rank), n)
  {
    hide Namespace.LayersOwned, Namespace.Holds, StatesOf;
    var x := ShotOf(ns, rank);
    assert ns.HasParent(n);
    var k := x.at[n][|x.at[n]| - 1];
    var p :| p in ns.at && k in p.children && p.children[k] == n;
    assert IsParent(x, p, k, n) && x.at[n] == x.at[p] + [k];
  }

  lemma ShotNodes(ns: Namespace, rank: map<Node, nat>, w: World)
    requires ns.Valid()
    ensures NodesIn(ShotOf(ns, rank), w) == ns.Nodes(w)
  {
    hide Namespace.TreeShaped, Namespace.LayersOwned, Namespace.Holds, LayerState.Root;
    forall n | n in ns.at
      ensures ViewsIn(StatesOf(n.layers), w) == Views(n.layers, w)
    {
    }
  }

  twostate lemma LayersFollow(new ls: seq<Layer>, new seen: Option<World>)
    requires old(allocated(ls)) && forall l | l in ls :: Follows(old(l.State()), seen, l.State())
    ensures AllFollow(old(StatesOf(ls)), seen, StatesOf(ls))
  {
    hide Follows;
  }

  lemma SplicedFollow(
      was: seq<LayerState>, have: seq<Layer>, more: seq<Layer>, disp: Option<Disposition>, seen: Option<World>,
      ls: seq<Layer>)
    requires AllFollow(was, seen, StatesOf(have)) && ls == if disp.Some? then Spliced(have, more, disp.value) else have
    ensures AllFollow(if disp.Some? then Spliced(was, StatesOf(more), disp.value) else was, seen, StatesOf(ls))
  {
    assert forall a: LayerState :: Follows(a, seen, a);
    hide Follows;
  }

  lemma OnlyOneHere(ns: Namespace, n: Node, m: Node)
    requires ns.Valid() && n in ns.at && m in ns.at
    ensures ns.at[m] == ns.at[n] ==> m == n
  {
    hide Namespace.LayersOwned, Namespace.Holds, Namespace.HasParent;
  }

  lemma LayersAreOwned(ns: Namespace, n: Node)
    requires ns.Valid() && n in ns.at
    ensures forall l | l in n.layers :: l in ns.owned
  {
    hide Namespace.TreeShaped, Namespace.Holds, Canonical;
  }

  twostate lemma OldFollow(new ns: Namespace, new n: Node, new seen: Option<World>)
    requires old(allocated(ns)) && old(ns.Valid()) && n in old(ns.at)
    requires forall l | l in old(ns.owned) :: Follows(old(l.State()), seen, l.State())
    ensures AllFollow(old(StatesOf(n.layers)), seen, StatesOf(old(n.layers)))
  {
    hide Namespace.TreeShaped, Namespace.Holds, Canonical, Follows, AllFollow;
    assert forall l | l in old(n.layers) :: l in old(ns.owned) by {
      hide Follows;
    }
    LayersFollow(old(n.layers), seen);
  }

  /** Layers went in at one node; the others are as they were, or have settled meanwhile. */
  twostate lemma PutAtPuts(
      new ns: Namespace, new rank: map<Node, nat>, new now: map<Node, nat>, new n: Node, new more: seq<Layer>,
      new disp: Option<Disposition>, new seen: Option<World>, new path: Path)
    requires old(allocated(ns)) && old(allocated(rank)) && old(ns.Valid()) && ns.Valid()
    requires n in ns.at && ns.at[n] == path && ns.PutAt(n, more, disp)
    requires forall m | m in old(ns.at) :: m in ns.at && ns.at[m] == old(ns.at)[m]
    requires forall q :: ns.HasPath(q) <==> old(ns.HasPath(q)) || IsPrefix(q, path)
    requires forall l | l in old(ns.owned) :: Follows(old(l.State()), seen, l.State())
    ensures old(ShotOf(ns, rank)).nodes.Keys == old(ns.at).Keys && ShotOf(ns, now).nodes.Keys == ns.at.Keys
    ensures Put(old(ShotOf(ns, rank)), seen, ShotOf(ns, now), path, StatesOf(more), disp)
  {
    hide Namespace.TreeShaped, Namespace.LayersOwned, Namespace.Holds, Canonical, Follows, AllFollow, Spliced, StatesOf;
    var x, y := old(ShotOf(ns, rank)), ShotOf(ns, now);
    forall q
      ensures HasPathIn(y, q) <==> HasPathIn(x, q) || IsPrefix(q, path)
    {
      assert HasPathIn(y, q) <==> ns.HasPath(q);
      assert HasPathIn(x, q) <==> old(ns.HasPath(q));
    }
    NoLayersFollow(seen);
    forall m | m in y.at
      ensures var was := if m in x.at then x.nodes[m].layers else [];
              AllFollow(if y.at[m] == path && disp.Some? then Spliced(was, StatesOf(more), disp.value) else was,
                        seen, y.nodes[m].layers)
    {
      OnlyOneHere(ns, n, m);
      if m in x.at {
        OldFollow(ns, m, seen);
      }
      if m == n {
        SplicedFollow(if n in x.at then x.nodes[n].layers else [], if n in x.at then old(n.layers) else [], more, disp, seen,
                      n.layers);
      }
    }
  }

  lemma NoLayersFollow(seen: Option<World>)
    ensures StatesOf([]) == [] && AllFollow([], seen, [])
  {
  }

  twostate lemma UnmovedSettles(
      new ns: Namespace, new rank: map<Node, nat>, new now: map<Node, nat>, new seen: Option<World>)
    requires old(allocated(ns)) && old(allocated(rank)) && old(ns.Valid()) && ns.Valid() && ns.at == old(ns.at)
    requires forall m | m in ns.at :: m.children == old(m.children) && m.layers == old(m.layers)
    requires forall l | l in old(ns.owned) :: Follows(old(l.State()), seen, l.State())
    ensures Settled(old(ShotOf(ns, rank)), seen, ShotOf(ns, now))
  {
    hide Namespace.TreeShaped, Namespace.LayersOwned, Namespace.Holds, Canonical, Follows, AllFollow, StatesOf;
    forall m | m in ns.at
      ensures AllFollow(old(StatesOf(m.layers)), seen, StatesOf(m.layers))
    {
      OldFollow(ns, m, seen);
    }
  }

  twostate lemma Emptied(new ns: Namespace, new rank: map<Node, nat>, new now: map<Node, nat>, new path: Path)
    requires old(allocated(ns)) && old(allocated(rank)) && old(ns.Valid()) && ns.Valid() && ns.at == old(ns.at)
    requires forall m | m in ns.at :: m.children == old(m.children)
    requires forall m | m in ns.at :: m.layers == if ns.at[m] == path then [] else old(m.layers)
    requires forall l | l in old(ns.owned) :: l.resolved == old(l.resolved)
    ensures old(ShotOf(ns, rank)).nodes.Keys == old(ns.at).Keys && ShotOf(ns, now).nodes.Keys == ns.at.Keys
    ensures Cleared(old(ShotOf(ns, rank)), ShotOf(ns, now), path)
  {
    hide Namespace.TreeShaped, Namespace.LayersOwned, Namespace.Holds, Canonical, StatesOf;
    NoLayersFollow(None);
    forall m | m in ns.at && ns.at[m] != path
      ensures StatesOf(m.layers) == old(StatesOf(m.layers))
    {
      OldFollow(ns, m, None);
    }
  }
}
