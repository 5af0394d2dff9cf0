/** The bind tree of a namespace as a value: nodes with explicit children and ordered layers, the
    files they lead to, and what walking, listing and stating them gives (ns/ns.go, ns/file.go,
    ns/rofile.go). The heap structure of module Namespaces is proved against these functions. */
module BindGraph {
  import opened Bytes
  import opened Messages
  import opened RoundTrip
  import opened DirPaging
  import opened DevStamp
  import opened Names

  type FileId = nat

  /** A file of the namespace: one of a bound filesystem's own, a node of the bind tree, or a
      wrapper - `Real` is an nsFile that has left the tree, `ReadOnly` a roFile. */
  datatype File<N> =
    | Base(id: FileId)
    | Tree(n: N)
    | Real(inner: File<N>, dev: uint32)
    | ReadOnly(inner: File<N>)

  /** What the bound filesystems answer while one request runs, and the dialect it arrived in. */
  datatype World = World(
    walk: (FileId, Name) -> Option<FileId>,
    list: FileId -> Option<seq<Stat>>,
    qid: FileId -> Qid,
    stat: FileId -> Option<Stat>,
    attach: nat -> Option<FileId>,
    unix: bool)

  /** A layer: its root, if that can be reached, the dev it stamps, and what Binds reports of it. */
  datatype LayerView<N> = LayerView(root: Option<File<N>>, dev: uint32, number: nat, ro: bool, spec: Name)

  datatype NodeView<N> = NodeView(children: map<Name, N>, layers: seq<LayerView<N>>, hash: uint64)

  /** A bind tree, the owner of its synthetic directories, and a rank for each node. */
  datatype Space<N> = Space(nodes: map<N, NodeView<N>>, user: Name, rank: map<N, nat>)

  const QTDIR: uint8 := 0x80
  const DMDIR: uint32 := 0x8000_0000
  const TREE_MODE: uint32 := DMDIR + 0x1ED

  /** The tree node a file ends in, if it does not end in a bound filesystem. */
  function Core<N>(f: File<N>): Option<N>
  {
    match f
    case Base(_) => None
    case Tree(n) => Some(n)
    case Real(inner, _) => Core(inner)
    case ReadOnly(inner) => Core(inner)
  }

  predicate Within<N>(f: File<N>, nodes: map<N, NodeView<N>>)
  {
    Core(f).Some? ==> Core(f).value in nodes
  }

  /** How many layer edges may still be followed from a file. */
  function Height<N>(f: File<N>, rank: map<N, nat>): nat
  {
    if Core(f).Some? && Core(f).value in rank then rank[Core(f).value] + 1 else 0
  }

  predicate Closed<N>(nodes: map<N, NodeView<N>>)
  {
    forall n | n in nodes ::
      && (forall k | k in nodes[n].children :: nodes[n].children[k] in nodes)
      && (forall i | 0 <= i < |nodes[n].layers| ::
            nodes[n].layers[i].root.Some? ==> Within(nodes[n].layers[i].root.value, nodes))
  }

  /** Following a layer of a node leads to strictly lower ranks. */
  predicate Ranked<N>(nodes: map<N, NodeView<N>>, rank: map<N, nat>)
  {
    && (forall n | n in nodes :: n in rank)
    && (forall n | n in nodes :: forall i | 0 <= i < |nodes[n].layers| ::
          nodes[n].layers[i].root.Some? ==> Height(nodes[n].layers[i].root.value, rank) <= rank[n])
  }

  predicate Sound<N>(s: Space<N>)
  {
    Closed(s.nodes) && Ranked(s.nodes, s.rank)
  }

  lemma WithinLayer<N>(s: Space<N>, n: N, i: nat)
    requires Sound(s) && n in s.nodes && i < |s.nodes[n].layers| && s.nodes[n].layers[i].root.Some?
    ensures Within(s.nodes[n].layers[i].root.value, s.nodes)
  {
  }

  lemma ChildWithin<N>(s: Space<N>, n: N, name: Name)
    requires Sound(s) && n in s.nodes && name in s.nodes[n].children
    ensures s.nodes[n].children[name] in s.nodes
  {
  }

  // ----- walking -----

  function WrapReadOnly<N>(c: File<N>): File<N>
  {
    if c.ReadOnly? then c else ReadOnly(c)
  }

  /** Walk by one name. In the tree, children come first, then the first layer that has the name. */
  function Walk<N>(w: World, s: Space<N>, f: File<N>, name: Name): (r: Option<File<N>>)
    requires Sound(s) && Within(f, s.nodes)
    ensures r.Some? ==> Within(r.value, s.nodes)
    decreases Height(f, s.rank), 0, f
  {
    match f
    case Base(id) =>
      (match w.walk(id, name) case None => None case Some(c) => Some(Base(c)))
    case Real(inner, dev) =>
      (match Walk(w, s, inner, name) case None => None case Some(c) => Some(Real(c, dev)))
    case ReadOnly(inner) =>
      (match Walk(w, s, inner, name) case None => None case Some(c) => Some(WrapReadOnly(c)))
    case Tree(n) =>
      if name == DOTDOT then None
      else if name in s.nodes[n].children then Some(Tree(s.nodes[n].children[name]))
      else
        var i := Serving(w, s, n, name, 0);
        if i == |s.nodes[n].layers| then None
        else Some(Real(Hit(w, s, n, i, name).value, s.nodes[n].layers[i].dev))
  }

  /** What layer i of node n has under the name. */
  function Hit<N>(w: World, s: Space<N>, n: N, i: nat, name: Name): (r: Option<File<N>>)
    requires Sound(s) && n in s.nodes && i < |s.nodes[n].layers|
    ensures r.Some? ==> Within(r.value, s.nodes)
    decreases s.rank[n], 1, 0
  {
    match s.nodes[n].layers[i].root
    case None => None
    case Some(root) => Walk(w, s, root, name)
  }

  /** The first layer from i on that has the name; one past the last if none has. */
  function Serving<N>(w: World, s: Space<N>, n: N, name: Name, i: nat): (r: nat)
    requires Sound(s) && n in s.nodes && i <= |s.nodes[n].layers|
    ensures i <= r <= |s.nodes[n].layers|
    ensures forall j :: i <= j < r ==> Hit(w, s, n, j, name) == None
    ensures r < |s.nodes[n].layers| ==> Hit(w, s, n, r, name).Some?
    decreases s.rank[n], 1, |s.nodes[n].layers| - i + 1
  {
    if i == |s.nodes[n].layers| || Hit(w, s, n, i, name).Some? then i else Serving(w, s, n, name, i + 1)
  }

  function WalkAll<N>(w: World, s: Space<N>, f: File<N>, path: seq<Name>): (r: Option<File<N>>)
    requires Sound(s) && Within(f, s.nodes)
    ensures r.Some? ==> Within(r.value, s.nodes)
    decreases |path|
  {
    if path == [] then Some(f)
    else match Walk(w, s, f, path[0]) case None => None case Some(c) => WalkAll(w, s, c, path[1..])
  }

  // ----- stating -----

  function QidOf<N>(w: World, s: Space<N>, f: File<N>): Qid
    requires Within(f, s.nodes)
  {
    match f
    case Base(id) => w.qid(id)
    case Real(inner, _) => QidOf(w, s, inner)
    case ReadOnly(inner) => QidOf(w, s, inner)
    case Tree(n) => Qid(QTDIR, 0, s.nodes[n].hash)
  }

  predicate IsDir(q: Qid)
  {
    q.qtype / 0x80 % 2 == 1
  }

  /** mode with the write permission bits, octal 222, cleared. */
  function WithoutWrite(mode: uint32): uint32
  {
    mode - mode / 2 % 2 * 2 - mode / 16 % 2 * 16 - mode / 128 % 2 * 128
  }

  function TreeStat<N>(s: Space<N>, n: N, name: Name): Stat
    requires n in s.nodes
  {
    Stat(0, 0, Qid(QTDIR, 0, s.nodes[n].hash), TREE_MODE, 0, 0, 0, name, s.user, s.user, s.user, [], 0, 0, 0)
  }

  function StatOf<N>(w: World, s: Space<N>, f: File<N>): Option<Stat>
    requires Within(f, s.nodes)
  {
    match f
    case Base(id) => w.stat(id)
    case Real(inner, dev) =>
      (match StatOf(w, s, inner) case None => None case Some(st) => Some(StampedWith(st, dev)))
    case ReadOnly(inner) =>
      (match StatOf(w, s, inner) case None => None case Some(st) => Some(st.(mode := WithoutWrite(st.mode))))
    case Tree(n) => Some(TreeStat(s, n, [SLASH]))
  }

  /** A dev of zero leaves the file's own alone. */
  function StampedWith(st: Stat, dev: uint32): Stat
  {
    if dev == 0 then st else WithDev(st, dev)
  }

  function AllStampedWith(es: seq<Stat>, dev: uint32): (r: seq<Stat>)
    ensures |r| == |es|
  {
    if dev == 0 then es else AllWithDev(es, dev)
  }

  // ----- listing -----

  /** Whether an entry survives a read through the namespace's directory buffer. */
  predicate Small(e: Stat, unix: bool)
  {
    StatFits(PlainPart(e, unix), unix) && |StatBlob(e, unix)| <= DIR_BUFFER
  }

  predicate AllSmall(es: seq<Stat>, unix: bool)
  {
    forall i :: 0 <= i < |es| ==> Small(es[i], unix)
  }

  predicate Listed(name: Name, es: seq<Stat>)
  {
    exists i :: 0 <= i < |es| && es[i].name == name
  }

  /** The entries whose names are new, in order, after those already there. */
  function AddNew(acc: seq<Stat>, es: seq<Stat>): seq<Stat>
    decreases |es|
  {
    if es == [] then acc
    else AddNew(if Listed(es[0].name, acc) then acc else acc + [es[0]], es[1..])
  }

  ghost function ChildEntries<N>(s: Space<N>, n: N, names: seq<Name>): (es: seq<Stat>)
    requires n in s.nodes && Closed(s.nodes) && forall x :: x in names ==> x in s.nodes[n].children
    ensures |es| == |names|
    ensures forall i :: 0 <= i < |names| ==> es[i] == TreeStat(s, s.nodes[n].children[names[i]], names[i])
  {
    if names == [] then []
    else [TreeStat(s, s.nodes[n].children[names[0]], names[0])] + ChildEntries(s, n, names[1..])
  }

  /** The entries a directory file serves; None is a failed read. */
  ghost function List<N>(w: World, s: Space<N>, f: File<N>): Option<seq<Stat>>
    requires Sound(s) && Within(f, s.nodes)
    decreases Height(f, s.rank), 0, f
  {
    match f
    case Base(id) => w.list(id)
    case ReadOnly(inner) => List(w, s, inner)
    case Real(inner, dev) =>
      (match List(w, s, inner)
       case None => None
       case Some(es) => Some(if IsDir(QidOf(w, s, inner)) then AllStampedWith(es, dev) else es))
    case Tree(n) =>
      if s.nodes[n].children == map[] && s.nodes[n].layers != [] && AllFail(w, s, n) then None
      else Some(Merged(w, s, n, |s.nodes[n].layers|))
  }

  /** One layer's share of a union listing. */
  ghost function LayerList<N>(w: World, s: Space<N>, n: N, i: nat): Option<seq<Stat>>
    requires Sound(s) && n in s.nodes && i < |s.nodes[n].layers|
    decreases s.rank[n], 1, 0
  {
    match s.nodes[n].layers[i].root
    case None => None
    case Some(root) =>
      match List(w, s, root)
      case None => None
      case Some(es) =>
        if AllSmall(es, w.unix) then Some(AllStampedWith(PlainParts(es, w.unix), s.nodes[n].layers[i].dev)) else None
  }

  ghost predicate AllFail<N>(w: World, s: Space<N>, n: N)
    requires Sound(s) && n in s.nodes
    decreases s.rank[n], 1, 1
  {
    forall i | 0 <= i < |s.nodes[n].layers| :: LayerList(w, s, n, i) == None
  }

  /** The tree children, then what the first k layers add. */
  ghost function Merged<N>(w: World, s: Space<N>, n: N, k: nat): seq<Stat>
    requires Sound(s) && n in s.nodes && k <= |s.nodes[n].layers|
    decreases s.rank[n], 1, k + 1
  {
    if k == 0 then ChildEntries(s, n, Sorted(s.nodes[n].children.Keys))
    else
      var before := Merged(w, s, n, k - 1);
      match LayerList(w, s, n, k - 1)
      case None => before
      case Some(es) => AddNew(before, es)
  }

  // ----- read-only files -----

  /** A read-only wrapper is somewhere around the file. */
  predicate Guarded<N>(f: File<N>)
  {
    match f
    case ReadOnly(_) => true
    case Real(inner, _) => Guarded(inner)
    case _ => false
  }

  /** Walking on from a file behind a read-only wrapper stays behind one, into the tree and through
      its layers as well; and so does a walk that a layer with such a root serves. */
  lemma {:induction false} WalkStaysGuarded<N>(w: World, s: Space<N>, f: File<N>, name: Name)
    requires Sound(s) && Within(f, s.nodes) && Walk(w, s, f, name).Some?
    ensures Guarded(f) ==> Guarded(Walk(w, s, f, name).value)
    ensures f.ReadOnly? ==> Walk(w, s, f, name).value.ReadOnly?
    ensures f.Tree? && name !in s.nodes[f.n].children ==>
              var k := Serving(w, s, f.n, name, 0);
              k < |s.nodes[f.n].layers| && s.nodes[f.n].layers[k].root.Some?
              && (Guarded(s.nodes[f.n].layers[k].root.value) ==> Guarded(Walk(w, s, f, name).value))
    decreases Height(f, s.rank), 0, f
  {
    match f {
      case Base(_) =>
      case Real(inner, _) => WalkStaysGuarded(w, s, inner, name);
      case ReadOnly(inner) =>
      case Tree(n) =>
        if name !in s.nodes[n].children {
          var k := Serving(w, s, n, name, 0);
          WalkStaysGuarded(w, s, s.nodes[n].layers[k].root.value, name);
        }
    }
  }

  lemma {:induction false} PathStaysGuarded<N>(w: World, s: Space<N>, f: File<N>, path: seq<Name>)
    requires Sound(s) && Within(f, s.nodes) && Guarded(f) && WalkAll(w, s, f, path).Some?
    ensures Guarded(WalkAll(w, s, f, path).value)
    decreases |path|
  {
    hide Sound, Walk;
    if path != [] {
      WalkStaysGuarded(w, s, f, path[0]);
      PathStaysGuarded(w, s, Walk(w, s, f, path[0]).value, path[1..]);
    }
  }

  // ----- creating -----

  /** The directory of a bound filesystem that a create in f goes to: through the first layer of each
      bind point on the way, and never through a read-only wrapper. */
  function CreatesIn<N>(s: Space<N>, f: File<N>): Option<FileId>
    requires Sound(s) && Within(f, s.nodes)
    decreases Height(f, s.rank), f
  {
    match f
    case Base(id) => Some(id)
    case Real(inner, _) => CreatesIn(s, inner)
    case ReadOnly(_) => None
    case Tree(n) =>
      if s.nodes[n].layers == [] || s.nodes[n].layers[0].root == None then None
      else CreatesIn(s, s.nodes[n].layers[0].root.value)
  }

  /** What is handed back for the file made there. */
  function Created<N>(s: Space<N>, f: File<N>, c: FileId): File<N>
    requires Sound(s) && Within(f, s.nodes) && CreatesIn(s, f).Some?
    decreases Height(f, s.rank), f
  {
    match f
    case Base(_) => Base(c)
    case Real(inner, dev) => Real(Created(s, inner, c), dev)
    case Tree(n) => Real(Created(s, s.nodes[n].layers[0].root.value, c), s.nodes[n].layers[0].dev)
  }

  /** At no bind point on the way is the name "..", or a child of the tree. */
  predicate Unhidden<N>(s: Space<N>, f: File<N>, name: Name)
    requires Sound(s) && Within(f, s.nodes) && CreatesIn(s, f).Some?
    decreases Height(f, s.rank), f
  {
    match f
    case Base(_) => true
    case Real(inner, _) => Unhidden(s, inner, name)
    case Tree(n) =>
      name != DOTDOT && name !in s.nodes[n].children && Unhidden(s, s.nodes[n].layers[0].root.value, name)
  }

  /** What the first layer of a node has, walking there finds, under that layer's dev, exactly when no
      tree child hides it and the name is not "..". */
  lemma FirstLayerServes<N>(w: World, s: Space<N>, n: N, name: Name, c: File<N>)
    requires Sound(s) && n in s.nodes && s.nodes[n].layers != [] && Hit(w, s, n, 0, name) == Some(c)
    ensures Walk(w, s, Tree(n), name) == Some(Real(c, s.nodes[n].layers[0].dev))
       <==> name != DOTDOT && name !in s.nodes[n].children
  {
    hide Hit, Closed, Ranked;
    assert Serving(w, s, n, name, 0) == 0;
  }

  lemma {:induction false} SomethingIsFound<N>(w: World, s: Space<N>, f: File<N>, name: Name)
    requires Sound(s) && Within(f, s.nodes) && CreatesIn(s, f).Some? && name != DOTDOT
    requires w.walk(CreatesIn(s, f).value, name).Some?
    ensures Walk(w, s, f, name).Some?
    decreases Height(f, s.rank), f
  {
    match f {
      case Base(_) =>
      case Real(inner, _) => SomethingIsFound(w, s, inner, name);
      case Tree(n) =>
        SomethingIsFound(w, s, s.nodes[n].layers[0].root.value, name);
        if name !in s.nodes[n].children {
          FirstLayerServes(w, s, n, name, Hit(w, s, n, 0, name).value);
        }
    }
  }

  /** Once the directory has the file, walking to its name from where the create was asked for finds
      what the create handed back exactly when nothing of the tree hides it. */
  lemma {:induction false} CreatedIsWalkedTo<N>(w: World, s: Space<N>, f: File<N>, name: Name, c: FileId)
    requires Sound(s) && Within(f, s.nodes) && CreatesIn(s, f).Some?
    requires w.walk(CreatesIn(s, f).value, name) == Some(c)
    ensures Walk(w, s, f, name) == Some(Created(s, f, c)) <==> Unhidden(s, f, name)
    decreases Height(f, s.rank), f
  {
    match f {
      case Base(_) =>
      case Real(inner, _) => CreatedIsWalkedTo(w, s, inner, name, c);
      case Tree(n) =>
        var root := s.nodes[n].layers[0].root.value;
        CreatedIsWalkedTo(w, s, root, name, c);
        assert Hit(w, s, n, 0, name) == Walk(w, s, root, name);
        if name != DOTDOT {
          SomethingIsFound(w, s, root, name);
          FirstLayerServes(w, s, n, name, Hit(w, s, n, 0, name).value);
        }
    }
  }
}
