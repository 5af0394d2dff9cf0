/** What a clone of a bind tree still shares with the original: exactly the tree nodes its layers hide
    behind files that have left the tree, which remapFile passes over (ns/clone.go). */
module Hiding {
  import opened Bytes
  import opened Messages
  import opened Names
  import opened BindGraph
  import opened Acyclic
  import opened Remap

  /** A tree and its copy side by side, ranked as the tree is. */
  ghost function Both<N>(s: Space<N>, m: map<N, N>, copy: map<N, NodeView<N>>): (g: Space<N>)
    requires Copied(s.nodes, m, copy) && Sound(s)
  {
    Space(s.nodes + copy, s.user,
          map n | n in s.nodes.Keys + copy.Keys :: if n in s.nodes then s.rank[n] else s.rank[Original(m, n)])
  }

  lemma BothSound<N>(s: Space<N>, m: map<N, N>, copy: map<N, NodeView<N>>)
    requires Copied(s.nodes, m, copy) && Sound(s)
    ensures Sound(Both(s, m, copy))
    ensures forall n | n in s.nodes :: n in m && m[n] in Both(s, m, copy).nodes
  {
    var g := Both(s, m, copy);
    forall n | n in s.nodes
      ensures m[n] in copy && m[n] !in s.nodes && CopyOf(s.nodes[n], copy[m[n]], m)
      ensures g.nodes[n] == s.nodes[n] && g.nodes[m[n]] == copy[m[n]] && g.rank[m[n]] == s.rank[n]
    {
      assert m[n] in m.Values;
    }
    forall n | n in g.nodes
      ensures forall k | k in g.nodes[n].children :: g.nodes[n].children[k] in g.nodes
      ensures forall i | 0 <= i < |g.nodes[n].layers| && g.nodes[n].layers[i].root.Some? ::
                && Within(g.nodes[n].layers[i].root.value, g.nodes)
                && Height(g.nodes[n].layers[i].root.value, g.rank) <= g.rank[n]
    {
      if n !in s.nodes {
        CopySound(s, m, copy, Original(m, n));
      }
    }
  }

  lemma CopySound<N>(s: Space<N>, m: map<N, N>, copy: map<N, NodeView<N>>, n: N)
    requires Copied(s.nodes, m, copy) && Sound(s) && n in s.nodes
    ensures m[n] in copy
    ensures forall k | k in copy[m[n]].children :: copy[m[n]].children[k] in copy
    ensures forall i | 0 <= i < |copy[m[n]].layers| && copy[m[n]].layers[i].root.Some? ::
              && Within(copy[m[n]].layers[i].root.value, s.nodes + copy)
              && Height(copy[m[n]].layers[i].root.value, Both(s, m, copy).rank) <= s.rank[n]
  {
    assert m[n] in m.Values && CopyOf(s.nodes[n], copy[m[n]], m);
    forall k | k in copy[m[n]].children
      ensures copy[m[n]].children[k] in copy
    {
      assert m[s.nodes[n].children[k]] in m.Values;
    }
    forall i | 0 <= i < |copy[m[n]].layers| && copy[m[n]].layers[i].root.Some?
      ensures Within(copy[m[n]].layers[i].root.value, s.nodes + copy)
      ensures Height(copy[m[n]].layers[i].root.value, Both(s, m, copy).rank) <= s.rank[n]
    {
      assert copy[m[n]].layers[i] == RemapLayer(s.nodes[n].layers[i], m);
      var f := s.nodes[n].layers[i].root.value;
      RemapMoves(f, m);
      if Core(f).Some? {
        assert m[Core(f).value] in m.Values;
      }
    }
  }

  /** The file of a bound filesystem at the bottom of f. */
  function BaseOf<N>(f: File<N>): Option<FileId>
  {
    match f
    case Base(id) => Some(id)
    case Tree(_) => None
    case Real(inner, _) => BaseOf(inner)
    case ReadOnly(inner) => BaseOf(inner)
  }

  /** A layer that binds a filesystem, at its file id. */
  function FsLayer<N>(id: FileId, dev: uint32, number: nat, ro: bool, spec: Name): (l: LayerView<N>)
    ensures OfFilesystem(l)
  {
    LayerView(Some(if ro then ReadOnly(Base(id)) else Base(id)), dev, number, ro, spec)
  }

  predicate OfFilesystem<N>(l: LayerView<N>)
  {
    l.root.Some? && BaseOf(l.root.value).Some?
  }

  lemma {:induction false} BaseHasNoCore<N>(f: File<N>)
    ensures BaseOf(f).Some? <==> Core(f) == None
  {
    match f {
      case Base(_) =>
      case Tree(_) =>
      case Real(inner, _) => BaseHasNoCore(inner);
      case ReadOnly(inner) => BaseHasNoCore(inner);
    }
  }

  /** The two trees after a filesystem was bound at node t. */
  ghost function AfterBind<N>(g: Space<N>, t: N, l: LayerView<N>, disp: Disposition): (r: Space<N>)
    requires t in g.nodes
  {
    g.(nodes := Bound(g.nodes, t, [l], disp))
  }

  lemma AfterBindSound<N>(g: Space<N>, t: N, l: LayerView<N>, disp: Disposition)
    requires Sound(g) && t in g.nodes && OfFilesystem(l)
    ensures Sound(AfterBind(g, t, l, disp))
  {
    var a := AfterBind(g, t, l, disp);
    BaseHasNoCore(l.root.value);
    forall n, i | n in a.nodes && 0 <= i < |a.nodes[n].layers| && a.nodes[n].layers[i].root.Some?
      ensures Within(a.nodes[n].layers[i].root.value, a.nodes)
      ensures Height(a.nodes[n].layers[i].root.value, a.rank) <= a.rank[n]
    {
      if n == t {
        assert a.nodes[t].layers[i] in g.nodes[t].layers || a.nodes[t].layers[i] == l;
      }
    }
  }

  // ----- nothing hidden: nothing shared -----

  /** A bind in the original does not reach a copy that hides nothing. */
  lemma UnhiddenIsApart<N>(
      w: World, s: Space<N>, m: map<N, N>, copy: map<N, NodeView<N>>, t: N, l: LayerView<N>, disp: Disposition, p: N,
      x: Name)
    requires Sound(s) && Copied(s.nodes, m, copy) && NoneHidden(s.nodes)
    requires t in s.nodes && OfFilesystem(l) && p in s.nodes
    ensures var g := Both(s, m, copy);
            && Sound(g) && Sound(AfterBind(g, t, l, disp)) && m[p] in g.nodes
            && Walk(w, AfterBind(g, t, l, disp), Tree(m[p]), x) == Walk(w, g, Tree(m[p]), x)
  {
    var g := Both(s, m, copy);
    BothSound(s, m, copy);
    AfterBindSound(g, t, l, disp);
    var c := CopyIsRanked(s, m, copy);
    assert m[p] in m.Values;
    WalksAlone(w, c, g, m[p], x);
    WalksAlone(w, c, AfterBind(g, t, l, disp), m[p], x);
  }

  lemma WalksAlone<N>(w: World, c: Space<N>, g: Space<N>, p: N, x: Name)
    requires Sound(c) && Sound(g) && g.user == c.user && p in c.nodes
    requires forall n | n in c.nodes :: n in g.nodes && g.nodes[n] == c.nodes[n]
    ensures Walk(w, g, Tree(p), x) == Walk(w, c, Tree(p), x)
  {
    Unmoved(c, g);
    hide CopySpace, Walk;
    WalkMoves(w, c, map n | n in c.nodes :: n, g, Tree(p), x);
    var r := Walk(w, c, Tree(p), x);
    if r.Some? {
      MovedByItself(r.value, map n | n in c.nodes :: n);
    }
  }

  /** A tree that is part of another, self-contained. */
  lemma Unmoved<N>(c: Space<N>, g: Space<N>)
    requires Sound(c) && Sound(g) && g.user == c.user && forall n | n in c.nodes :: n in g.nodes && g.nodes[n] == c.nodes[n]
    ensures CopySpace(c, map n | n in c.nodes :: n, g)
  {
    var id := map n | n in c.nodes :: n;
    forall n, i | n in c.nodes && 0 <= i < |c.nodes[n].layers| && c.nodes[n].layers[i].root.Some?
      ensures Moved(c.nodes[n].layers[i].root.value, id) == c.nodes[n].layers[i].root.value
    {
      MovedByItself(c.nodes[n].layers[i].root.value, id);
    }
  }

  // ----- something hidden: a bind in the original shows in the copy -----

  /** What is found behind wrappers is found in front of them. */
  lemma {:induction false} FoundBehind<N>(w: World, g: Space<N>, f: File<N>, t: N, x: Name)
    requires Sound(g) && Within(f, g.nodes) && Core(f) == Some(t)
    ensures t in g.nodes && (Walk(w, g, f, x).Some? <==> Walk(w, g, Tree(t), x).Some?)
  {
    match f {
      case Tree(_) =>
      case Real(inner, _) => FoundBehind(w, g, inner, t, x);
      case ReadOnly(inner) => FoundBehind(w, g, inner, t, x);
    }
  }

  lemma FoundInLayer<N>(w: World, g: Space<N>, n: N, i: nat, x: Name)
    requires Sound(g) && n in g.nodes && i < |g.nodes[n].layers| && x != DOTDOT
    requires Hit(w, g, n, i, x).Some?
    ensures Walk(w, g, Tree(n), x).Some?
  {
    hide Sound, Hit;
    var k := Serving(w, g, n, x, 0);
    assert k <= i;
  }

  lemma HiddenShared<N>(
      s: Space<N>, m: map<N, N>, copy: map<N, NodeView<N>>, p: N, i: nat, t: N, l: LayerView<N>, disp: Disposition)
      returns (a: Space<N>, at: nat)
    requires Sound(s) && Copied(s.nodes, m, copy) && p in s.nodes && i < |s.nodes[p].layers|
    requires s.nodes[p].layers[i].root.Some? && Hides(s.nodes[p].layers[i].root.value)
    requires Core(s.nodes[p].layers[i].root.value) == Some(t)
    ensures t in s.nodes && a == AfterBind(Both(s, m, copy), t, l, disp)
    ensures m[p] in a.nodes && i < |a.nodes[m[p]].layers| && a.nodes[m[p]].layers[i].root == s.nodes[p].layers[i].root
    ensures at < |a.nodes[t].layers| && a.nodes[t].layers[at] == l
  {
    var f := s.nodes[p].layers[i].root.value;
    assert m[p] in m.Values && CopyOf(s.nodes[p], copy[m[p]], m);
    RemapMoves(f, m);
    a := AfterBind(Both(s, m, copy), t, l, disp);
    at := if disp == After then |s.nodes[t].layers| else 0;
  }

  /** The copy of a layer that hides node t leads to t itself, so a name t did not have and is given by
      a bind in the original appears in the copy. */
  lemma HiddenLeaks<N>(
      w: World, s: Space<N>, m: map<N, N>, copy: map<N, NodeView<N>>, p: N, i: nat, t: N, l: LayerView<N>, disp: Disposition,
      x: Name)
    requires Sound(s) && Copied(s.nodes, m, copy) && p in s.nodes && i < |s.nodes[p].layers|
    requires s.nodes[p].layers[i].root.Some? && Hides(s.nodes[p].layers[i].root.value)
    requires Core(s.nodes[p].layers[i].root.value) == Some(t)
    requires OfFilesystem(l) && w.walk(BaseOf(l.root.value).value, x).Some? && x != DOTDOT
    ensures var g := Both(s, m, copy);
            && t in s.nodes && Sound(g) && Sound(AfterBind(g, t, l, disp)) && m[p] in g.nodes
            && Walk(w, AfterBind(g, t, l, disp), Tree(m[p]), x).Some?
  {
    var a, at := HiddenShared(s, m, copy, p, i, t, l, disp);
    BothSound(s, m, copy);
    AfterBindSound(Both(s, m, copy), t, l, disp);
    hide Sound, Both, AfterBind, Copied, Walk, Hit, CopyOf, Hides, OfFilesystem, BaseOf;
    LayerHas(w, a, t, at, x);
    FoundInLayer(w, a, t, at, x);
    WithinLayer(a, m[p], i);
    FoundBehind(w, a, a.nodes[m[p]].layers[i].root.value, t, x);
    HitIsWalk(w, a, m[p], i, x);
    FoundInLayer(w, a, m[p], i, x);
  }

  lemma HitIsWalk<N>(w: World, a: Space<N>, n: N, i: nat, x: Name)
    requires Sound(a) && n in a.nodes && i < |a.nodes[n].layers| && a.nodes[n].layers[i].root.Some?
    requires Within(a.nodes[n].layers[i].root.value, a.nodes)
    ensures Hit(w, a, n, i, x) == Walk(w, a, a.nodes[n].layers[i].root.value, x)
  {
  }

  lemma LayerHas<N>(w: World, a: Space<N>, t: N, at: nat, x: Name)
    requires Sound(a) && t in a.nodes && at < |a.nodes[t].layers| && OfFilesystem(a.nodes[t].layers[at])
    requires w.walk(BaseOf(a.nodes[t].layers[at].root.value).value, x).Some?
    ensures Hit(w, a, t, at, x).Some?
  {
    BaseHasNoCore(a.nodes[t].layers[at].root.value);
    BaseHas(w, a, a.nodes[t].layers[at].root.value, x);
  }

  lemma {:induction false} BaseHas<N>(w: World, a: Space<N>, f: File<N>, x: Name)
    requires Sound(a) && Within(f, a.nodes) && BaseOf(f).Some?
    ensures Walk(w, a, f, x).Some? <==> w.walk(BaseOf(f).value, x).Some?
  {
    match f {
      case Base(_) =>
      case Real(inner, _) => BaseHas(w, a, inner, x);
      case ReadOnly(inner) => BaseHas(w, a, inner, x);
    }
  }

  // ----- exactly when -----

  ghost predicate Unused<N>(nodes: map<N, NodeView<N>>, id: FileId)
  {
    forall n | n in nodes :: forall i | 0 <= i < |nodes[n].layers| ::
      nodes[n].layers[i].root.Some? ==> BaseOf(nodes[n].layers[i].root.value) != Some(id)
  }

  function LargestIn<N>(ls: seq<LayerView<N>>): (k: nat)
    ensures forall i | 0 <= i < |ls| ::
              ls[i].root.Some? && BaseOf(ls[i].root.value).Some? ==> BaseOf(ls[i].root.value).value <= k
  {
    if ls == [] then 0
    else
      var rest := LargestIn(ls[1..]);
      assert forall i | 1 <= i < |ls| :: ls[i] == ls[1..][i - 1];
      var here := if ls[0].root.Some? && BaseOf(ls[0].root.value).Some? then BaseOf(ls[0].root.value).value else 0;
      if here > rest then here else rest
  }

  ghost function LargestAt<N>(nodes: map<N, NodeView<N>>, among: set<N>): (k: nat)
    requires among <= nodes.Keys
    ensures forall n | n in among :: LargestIn(nodes[n].layers) <= k
  {
    if among == {} then 0
    else
      var n :| n in among;
      var rest := LargestAt(nodes, among - {n});
      assert forall d | d in among :: d == n || d in among - {n};
      if LargestIn(nodes[n].layers) > rest then LargestIn(nodes[n].layers) else rest
  }

  lemma SomeUnused<N>(nodes: map<N, NodeView<N>>) returns (id: FileId)
    ensures Unused(nodes, id)
  {
    id := LargestAt(nodes, nodes.Keys) + 1;
    forall n, i | n in nodes && 0 <= i < |nodes[n].layers| && nodes[n].layers[i].root.Some?
      ensures BaseOf(nodes[n].layers[i].root.value) != Some(id)
    {
      assert LargestIn(nodes[n].layers) < id;
    }
  }

  /** A world in which one file, and only it, has one name. */
  function OneName(id: FileId, x: Name): World
  {
    World((i, name) => if i == id && name == x then Some(id) else None,
          i => None, i => Qid(0, 0, 0), i => None, i => None, false)
  }

  lemma {:induction false} NotFoundElsewhere<N>(g: Space<N>, id: FileId, f: File<N>, x: Name)
    requires Sound(g) && Within(f, g.nodes) && Unused(g.nodes, id) && BaseOf(f) != Some(id)
    requires forall n | n in g.nodes :: x !in g.nodes[n].children
    ensures Walk(OneName(id, x), g, f, x) == None
    decreases Height(f, g.rank), 0, f
  {
    match f {
      case Base(_) =>
      case Real(inner, _) => NotFoundElsewhere(g, id, inner, x);
      case ReadOnly(inner) => NotFoundElsewhere(g, id, inner, x);
      case Tree(n) =>
        forall i | 0 <= i < |g.nodes[n].layers|
          ensures Hit(OneName(id, x), g, n, i, x) == None
        {
          if g.nodes[n].layers[i].root.Some? {
            NotFoundElsewhere(g, id, g.nodes[n].layers[i].root.value, x);
          }
        }
    }
  }

  /** A bind of a filesystem anywhere in the original leaves every walk of the copy as it was. */
  ghost predicate Undisturbed<N>(s: Space<N>, m: map<N, N>, copy: map<N, NodeView<N>>)
    requires Sound(s) && Copied(s.nodes, m, copy)
  {
    forall w: World, t: N, id: FileId, dev: uint32, ro: bool, spec: Name, disp: Disposition, p: N, x: Name |
      t in s.nodes && p in s.nodes :: KeepsWalk(w, s, m, copy, t, FsLayer(id, dev, 0, ro, spec), disp, p, x)
  }

  ghost predicate KeepsWalk<N>(
    w: World, s: Space<N>, m: map<N, N>, copy: map<N, NodeView<N>>, t: N, l: LayerView<N>, disp: Disposition, p: N, x: Name)
    requires Sound(s) && Copied(s.nodes, m, copy) && t in s.nodes && p in s.nodes && OfFilesystem(l)
  {
    BothSound(s, m, copy);
    var g := Both(s, m, copy);
    AfterBindSound(g, t, l, disp);
    Walk(w, AfterBind(g, t, l, disp), Tree(m[p]), x) == Walk(w, g, Tree(m[p]), x)
  }

  /** That is so exactly when no layer of the original hides a node. */
  lemma UndisturbedIffNoneHidden<N>(s: Space<N>, m: map<N, N>, copy: map<N, NodeView<N>>)
    requires Sound(s) && Copied(s.nodes, m, copy)
    ensures Undisturbed(s, m, copy) <==> NoneHidden(s.nodes)
  {
    hide Sound, Copied, Both, AfterBind, Walk;
    BothSound(s, m, copy);
    if NoneHidden(s.nodes) {
      forall w: World, t: N, id: FileId, dev: uint32, ro: bool, spec: Name, disp: Disposition, p: N, x: Name |
        t in s.nodes && p in s.nodes
        ensures KeepsWalk(w, s, m, copy, t, FsLayer(id, dev, 0, ro, spec), disp, p, x)
      {
        UnhiddenIsApart(w, s, m, copy, t, FsLayer(id, dev, 0, ro, spec), disp, p, x);
      }
    } else {
      var p, i :| p in s.nodes && 0 <= i < |s.nodes[p].layers|
                  && s.nodes[p].layers[i].root.Some? && Hides(s.nodes[p].layers[i].root.value);
      HiddenDisturbs(s, m, copy, p, i);
    }
  }

  lemma HiddenDisturbs<N>(s: Space<N>, m: map<N, N>, copy: map<N, NodeView<N>>, p: N, i: nat)
    requires Sound(s) && Copied(s.nodes, m, copy) && p in s.nodes && i < |s.nodes[p].layers|
    requires s.nodes[p].layers[i].root.Some? && Hides(s.nodes[p].layers[i].root.value)
    ensures !Undisturbed(s, m, copy)
  {
    hide Sound, Copied, Both, AfterBind, Walk;
    BothSound(s, m, copy);
    var g := Both(s, m, copy);
    var x := NameNoNodeHas(g.nodes);
    var id := SomeUnused(g.nodes);
    NotFoundElsewhere(g, id, Tree(m[p]), x);
    var l: LayerView<N> := FsLayer(id, 0, 0, false, []);
    HiddenCore(s.nodes[p].layers[i].root.value);
    var t := Core(s.nodes[p].layers[i].root.value).value;
    HiddenLeaks(OneName(id, x), s, m, copy, p, i, t, l, Before, x);
    assert !KeepsWalk(OneName(id, x), s, m, copy, t, l, Before, p, x);
  }
}
