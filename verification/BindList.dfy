/** Binds over the namespace itself, and rebuilding a namespace from what it reports (ns/binds.go). */
module BindList {
  import opened Bytes
  import opened Names
  import opened Paths
  import opened BindGraph
  import opened Acyclic
  import opened Namespaces
  import opened Cloning
  import opened Replay

  function InfoOf(l: Layer): Info
  {
    Info(l.spec, l.ro, l.number, l.Dev())
  }

  function InfosOf(ls: seq<Layer>): (r: seq<Info>)
    ensures |r| == |ls|
  {
    seq(|ls|, i requires 0 <= i < |ls| => InfoOf(ls[i]))
  }

  /** What is bound at every path. */
  ghost function TableOf(ns: Namespace): (t: Table)
    requires ns.TreeShaped()
    reads ns, ns.at.Keys
    ensures forall n | n in ns.at :: n.layers != [] <==> ns.at[n] in t
    ensures forall n | n in ns.at && n.layers != [] :: t[ns.at[n]] == InfosOf(n.layers)
    ensures forall p | p in t :: exists n | n in ns.at :: ns.at[n] == p && n.layers != []
  {
    map n | n in ns.at && n.layers != [] :: ns.at[n] := InfosOf(n.layers)
  }

  /** The paths with layers among some nodes. */
  ghost function LayeredPaths(ns: Namespace, s: set<Node>): set<Path>
    requires s <= ns.at.Keys
    reads ns`at, s
  {
    set d | d in s && d.layers != [] :: ns.at[d]
  }

  ghost predicate AllFrom(t: Table, points: seq<Point>)
  {
    forall i :: 0 <= i < |points| ==> LayersFrom(t, points[i])
  }

  /** One point for each of these nodes that has layers, with what it has. */
  ghost predicate Covers(ns: Namespace, points: seq<Point>, s: set<Node>)
    requires ns.TreeShaped() && s <= ns.at.Keys
    reads ns, ns.at.Keys
  {
    && Elements(PathsOf(points)) == LayeredPaths(ns, s) && NoRepeats(PathsOf(points))
    && AllFrom(TableOf(ns), points)
  }

  /** The points at and below a node: its own first, then child by child in name order. */
  method Collect(ns: Namespace, n: Node, path: Path) returns (points: seq<Point>)
    requires ns.Shaped() && n in ns.at && path == ns.at[n]
    ensures Covers(ns, points, Below(ns, n))
    decreases Below(ns, n)
  {
    hide Namespace.TreeShaped, Namespace.LayersOwned, Below, Done, Covers, NameSet, Sorted, Ascending;
    DoneAtFirst(ns, n);
    OwnPoint(ns, n);
    points := if |n.layers| > 0 then [Point(path, InfosOf(n.layers))] else [];
    var names := SortStrings(n.children.Keys);
    ghost var left := n.children.Keys;
    AllNames(names, n.children.Keys);
    var i := 0;
    while i < |names|
      invariant 0 <= i <= |names| && left == NameSet(names[i..]) && left <= n.children.Keys
      invariant Covers(ns, points, Done(ns, n, left))
    {
      RestOfNames(names, i);
      var k := names[i];
      DoneWith(ns, n, left, k);
      ChildPath(ns, n, k);
      var more := Collect(ns, n.children[k], path + [k]);
      Joined(ns, points, more, Done(ns, n, left), Below(ns, n.children[k]));
      points, left, i := points + more, left - {k}, i + 1;
    }
  }

  ghost function NameSet(names: seq<Name>): set<Name>
  {
    set k | k in names
  }

  lemma AllNames(names: seq<Name>, keys: set<Name>)
    requires forall k :: k in names <==> k in keys
    ensures NameSet(names[0..]) == keys && NameSet(names[|names|..]) == {}
  {
    assert names[0..] == names;
  }

  lemma RestOfNames(names: seq<Name>, i: nat)
    requires Ascending(names) && i < |names|
    ensures names[i] in NameSet(names[i..]) && NameSet(names[i + 1..]) == NameSet(names[i..]) - {names[i]}
  {
    assert names[i..] == [names[i]] + names[i + 1..];
    assert names[i] !in names[i + 1..];
  }

  lemma ChildPath(ns: Namespace, n: Node, k: Name)
    requires ns.TreeShaped() && n in ns.at && k in n.children
    ensures n.children[k] in ns.at && ns.at[n.children[k]] == ns.at[n] + [k]
  {
  }

  lemma OwnPoint(ns: Namespace, n: Node)
    requires ns.TreeShaped() && n in ns.at
    ensures Covers(ns, if |n.layers| > 0 then [Point(ns.at[n], InfosOf(n.layers))] else [], {n})
  {
    var own := if |n.layers| > 0 then [Point(ns.at[n], InfosOf(n.layers))] else [];
    if |n.layers| > 0 {
      assert PathsOf(own) == [ns.at[n]];
      assert |InfosOf(n.layers)| > 0;
    }
  }

  lemma Joined(ns: Namespace, a: seq<Point>, b: seq<Point>, s: set<Node>, t: set<Node>)
    requires ns.TreeShaped() && s <= ns.at.Keys && t <= ns.at.Keys && s !! t
    requires Covers(ns, a, s) && Covers(ns, b, t)
    ensures Covers(ns, a + b, s + t)
  {
    hide TableOf, LayersFrom, NoRepeats;
    assert PathsOf(a + b) == PathsOf(a) + PathsOf(b);
    assert LayeredPaths(ns, s) !! LayeredPaths(ns, t);
    Concat(PathsOf(a), PathsOf(b));
    assert LayeredPaths(ns, s + t) == LayeredPaths(ns, s) + LayeredPaths(ns, t);
  }

  lemma Concat(a: seq<Path>, b: seq<Path>)
    requires NoRepeats(a) && NoRepeats(b) && Elements(a) !! Elements(b)
    ensures NoRepeats(a + b) && Elements(a + b) == Elements(a) + Elements(b)
  {
    forall i, j | 0 <= i < j < |a + b|
      ensures (a + b)[i] != (a + b)[j]
    {
      if i < |a| <= j {
        assert (a + b)[i] in Elements(a) && (a + b)[j] in Elements(b);
      }
    }
  }

  // ----- sorting -----

  method FirstOf(layers: seq<Info>) returns (first: nat)
    requires layers != []
    ensures first == First(layers)
  {
    first := layers[0].number;
    var i := 1;
    while i < |layers|
      invariant 1 <= i <= |layers|
      invariant forall j :: 0 <= j < i ==> first <= layers[j].number
      invariant exists j :: 0 <= j < i && layers[j].number == first
    {
      if layers[i].number < first {
        first := layers[i].number;
      }
      i := i + 1;
    }
  }

  ghost predicate AllLayered(points: seq<Point>)
  {
    forall i :: 0 <= i < |points| ==> points[i].layers != []
  }

  /** The points first bound at f, in the order they stand. */
  ghost function WithFirst(points: seq<Point>, f: nat): seq<Point>
  {
    if points == [] then []
    else (if points[0].layers != [] && First(points[0].layers) == f then [points[0]] else []) + WithFirst(points[1..], f)
  }

  lemma {:induction false} WithFirstJoins(a: seq<Point>, b: seq<Point>, f: nat)
    ensures WithFirst(a + b, f) == WithFirst(a, f) + WithFirst(b, f)
  {
    hide First;
    if a == [] {
      assert a + b == b;
    } else {
      assert (a + b)[0] == a[0] && (a + b)[1..] == a[1..] + b;
      WithFirstJoins(a[1..], b, f);
    }
  }

  lemma {:induction false} NoneWithFirst(s: seq<Point>, f: nat)
    requires AllLayered(s) && forall j :: 0 <= j < |s| ==> First(s[j].layers) != f
    ensures WithFirst(s, f) == []
  {
    hide First;
    if s != [] {
      NoneWithFirst(s[1..], f);
    }
  }

  /** Of the point inserted and those it goes before, only one kind can be first bound at f. */
  lemma OneOrOther(s: seq<Point>, p: Point, i: nat, f: nat)
    requires AllLayered(s) && InOrder(s) && i <= |s| && p.layers != []
    requires i < |s| ==> First(p.layers) < First(s[i].layers)
    ensures WithFirst([p], f) == [] || WithFirst(s[i..], f) == []
  {
    hide First;
    if f == First(p.layers) {
      forall j | 0 <= j < |s[i..]|
        ensures First(s[i..][j].layers) != f
      {
        assert s[i..][j] == s[i + j];
        assert First(s[i].layers) <= First(s[i + j].layers);
      }
      NoneWithFirst(s[i..], f);
    } else {
      assert [p][1..] == [];
    }
  }

  lemma InsertedLast(s: seq<Point>, p: Point, i: nat, f: nat)
    requires AllLayered(s) && InOrder(s) && i <= |s| && p.layers != []
    requires i < |s| ==> First(p.layers) < First(s[i].layers)
    ensures WithFirst(s[..i] + [p] + s[i..], f) == WithFirst(s + [p], f)
  {
    OneOrOther(s, p, i, f);
    hide WithFirst, First, InOrder, AllLayered;
    PassedOver(s[..i], [p], s[i..], f);
    assert s[..i] + s[i..] == s;
  }

  lemma PassedOver(a: seq<Point>, b: seq<Point>, c: seq<Point>, f: nat)
    requires WithFirst(b, f) == [] || WithFirst(c, f) == []
    ensures WithFirst(a + b + c, f) == WithFirst(a + c + b, f)
  {
    hide WithFirst;
    WithFirstJoins(a + b, c, f);
    WithFirstJoins(a, b, f);
    WithFirstJoins(a + c, b, f);
    WithFirstJoins(a, c, f);
  }

  lemma WithFirstStep(r: seq<Point>, next: seq<Point>, points: seq<Point>, i: nat)
    requires i < |points| && forall f: nat :: WithFirst(r, f) == WithFirst(points[..i], f)
    requires forall f: nat :: WithFirst(next, f) == WithFirst(r + [points[i]], f)
    ensures forall f: nat :: WithFirst(next, f) == WithFirst(points[..i + 1], f)
  {
    hide WithFirst;
    assert points[..i + 1] == points[..i] + [points[i]];
    forall f: nat
      ensures WithFirst(next, f) == WithFirst(points[..i + 1], f)
    {
      WithFirstJoins(r, [points[i]], f);
      WithFirstJoins(points[..i], [points[i]], f);
    }
  }

  /** Stable: points first bound at the same time stay in the order they came. */
  method SortByFirst(ghost t: Table, points: seq<Point>) returns (r: seq<Point>)
    requires AllFrom(t, points) && NoRepeats(PathsOf(points))
    ensures AllFrom(t, r) && NoRepeats(PathsOf(r)) && Elements(PathsOf(r)) == Elements(PathsOf(points))
    ensures AllLayered(r) && InOrder(r)
    ensures forall f: nat :: WithFirst(r, f) == WithFirst(points, f)
  {
    hide First, LayersFrom, WithFirst;
    r := [];
    var i := 0;
    while i < |points|
      invariant 0 <= i <= |points|
      invariant AllFrom(t, r) && NoRepeats(PathsOf(r)) && AllLayered(r) && InOrder(r)
      invariant Elements(PathsOf(r)) == Elements(PathsOf(points[..i]))
      invariant forall f: nat :: WithFirst(r, f) == WithFirst(points[..i], f)
    {
      PrefixPaths(points, i);
      PointHasLayers(t, points, i);
      ghost var was := r;
      r := InsertByFirst(t, r, points[i]);
      WithFirstStep(was, r, points, i);
      i := i + 1;
    }
    assert points[..i] == points;
  }

  lemma PointHasLayers(t: Table, points: seq<Point>, i: nat)
    requires AllFrom(t, points) && i < |points|
    ensures LayersFrom(t, points[i]) && points[i].layers != []
  {
  }

  lemma PrefixPaths(points: seq<Point>, i: nat)
    requires NoRepeats(PathsOf(points)) && i < |points|
    ensures Elements(PathsOf(points[..i + 1])) == Elements(PathsOf(points[..i])) + {points[i].path}
    ensures points[i].path !in Elements(PathsOf(points[..i]))
  {
    assert PathsOf(points[..i + 1]) == PathsOf(points[..i]) + [points[i].path];
    assert PathsOf(points[..i]) == PathsOf(points)[..i] && PathsOf(points)[i] == points[i].path;
  }

  method InsertByFirst(ghost t: Table, s: seq<Point>, p: Point) returns (r: seq<Point>)
    requires AllFrom(t, s) && NoRepeats(PathsOf(s)) && AllLayered(s) && InOrder(s)
    requires LayersFrom(t, p) && p.layers != [] && p.path !in Elements(PathsOf(s))
    ensures AllFrom(t, r) && NoRepeats(PathsOf(r)) && Elements(PathsOf(r)) == Elements(PathsOf(s)) + {p.path}
    ensures AllLayered(r) && InOrder(r)
    ensures forall f: nat :: WithFirst(r, f) == WithFirst(s + [p], f)
  {
    hide First, LayersFrom, WithFirst;
    var key := FirstOf(p.layers);
    var i := 0;
    while i < |s|
      invariant 0 <= i <= |s|
      invariant forall j :: 0 <= j < i ==> First(s[j].layers) <= key
    {
      var f := FirstOf(s[i].layers);
      if key < f {
        break;
      }
      i := i + 1;
    }
    r := s[..i] + [p] + s[i..];
    Inserted(t, s, p, i);
    forall f: nat
      ensures WithFirst(r, f) == WithFirst(s + [p], f)
    {
      InsertedLast(s, p, i, f);
    }
  }

  lemma Inserted(t: Table, s: seq<Point>, p: Point, i: nat)
    requires AllFrom(t, s) && NoRepeats(PathsOf(s)) && AllLayered(s) && InOrder(s) && i <= |s|
    requires LayersFrom(t, p) && p.layers != [] && p.path !in Elements(PathsOf(s))
    requires forall j :: 0 <= j < i ==> First(s[j].layers) <= First(p.layers)
    requires i < |s| ==> First(p.layers) < First(s[i].layers)
    ensures var r := s[..i] + [p] + s[i..];
            && AllFrom(t, r) && NoRepeats(PathsOf(r)) && Elements(PathsOf(r)) == Elements(PathsOf(s)) + {p.path}
            && AllLayered(r) && InOrder(r)
  {
    hide First, LayersFrom, InOrder;
    InsertedInOrder(s, p, i);
    var r := s[..i] + [p] + s[i..];
    var a, b := PathsOf(s)[..i], PathsOf(s)[i..];
    assert PathsOf(r) == a + [p.path] + b && PathsOf(s) == a + b;
    assert p.path !in a && p.path !in b;
    forall q
      ensures q in PathsOf(r) <==> q in PathsOf(s) || q == p.path
    {
    }
  }

  lemma InsertedInOrder(s: seq<Point>, p: Point, i: nat)
    requires AllLayered(s) && InOrder(s) && i <= |s| && p.layers != []
    requires forall j :: 0 <= j < i ==> First(s[j].layers) <= First(p.layers)
    requires i < |s| ==> First(p.layers) < First(s[i].layers)
    ensures AllLayered(s[..i] + [p] + s[i..]) && InOrder(s[..i] + [p] + s[i..])
  {
    hide First;
    assert forall j :: i <= j < |s| ==> First(s[i].layers) <= First(s[j].layers);
  }

  // ----- the list -----

  /** The lines are those of every path of the table, once, in order of first bind. */
  ghost predicate Reports(out: seq<Bind>, t: Table)
  {
    exists points: seq<Point> :: IsListing(t, points) && out == Lines(points)
  }

  /** Every layer of every bind point, in replay order. */
  method Binds(ns: Namespace) returns (out: seq<Bind>)
    requires ns.Valid()
    ensures Reports(out, TableOf(ns))
  {
    hide Namespace.TreeShaped, Namespace.LayersOwned, Namespace.Holds, Below, TableOf, AllFrom, Lines, LinesOf,
         NoRepeats, InOrder, LayersFrom, IsListing,
         AllLayered, Elements, LayeredPaths, PathsOf, WithFirst;
    EverythingBelow(ns);
    ns.RootIsHere();
    var found := Collect(ns, ns.root, []);
    var sorted := SortByFirst(TableOf(ns), found);
    IsWhole(ns, sorted);
    out := PrintAll(sorted);
    assert IsListing(TableOf(ns), sorted);
  }

  method PrintAll(points: seq<Point>) returns (out: seq<Bind>)
    ensures out == Lines(points)
  {
    hide Lines, LinesOf;
    out := [];
    NoLines(points[..0]);
    var i := 0;
    while i < |points|
      invariant 0 <= i <= |points| && out == Lines(points[..i])
    {
      var lines := PrintPoint(points[i]);
      LinesStep(points, i);
      out := out + lines;
      i := i + 1;
    }
    assert points[..i] == points;
  }

  lemma NoLines(points: seq<Point>)
    ensures points == [] ==> Lines(points) == []
  {
  }

  lemma LinesStep(points: seq<Point>, i: nat)
    requires i < |points|
    ensures Lines(points[..i + 1]) == Lines(points[..i]) + LinesOf(points[i])
  {
    assert points[..i + 1][..i] == points[..i];
  }

  lemma IsWhole(ns: Namespace, points: seq<Point>)
    requires ns.Valid() && AllFrom(TableOf(ns), points) && NoRepeats(PathsOf(points)) && AllLayered(points)
    requires InOrder(points) && Elements(PathsOf(points)) == LayeredPaths(ns, ns.at.Keys)
    ensures IsListing(TableOf(ns), points)
  {
    hide Namespace.TreeShaped, InOrder, NoRepeats, LayersFrom;
    var t := TableOf(ns);
    forall p
      ensures p in t <==> p in LayeredPaths(ns, ns.at.Keys)
    {
    }
  }

  method PrintPoint(p: Point) returns (lines: seq<Bind>)
    ensures lines == LinesOf(p)
  {
    lines := [];
    var i := 0;
    while i < |p.layers|
      invariant 0 <= i <= |p.layers| && |lines| == i
      invariant forall j :: 0 <= j < i ==> lines[j] == LineOf(p.path, p.layers[j], j)
    {
      var l := p.layers[i];
      lines := lines + [Bind(PathText(p.path), l.spec, i != 0, l.ro, l.dev)];
      i := i + 1;
    }
  }

  // ----- replaying it -----

  /** A new namespace with the lines bound from the top, each from a filesystem of its own. */
  method Rebuild(user: Name, hash: Path -> uint64, lines: seq<Bind>, fs: nat -> nat) returns (ns: Namespace)
    ensures fresh(ns) && ns.Valid() && TableOf(ns) == Replayed(lines)
  {
    hide Namespace.TreeShaped, Namespace.LayersOwned, Namespace.Holds, Applied, SplitPath, TableOf, Replayed, BoundAt,
         Namespace.HasPath, Spliced, IsPrefix, LayerState.Root, Namespace.Branches;
    ns := new Namespace(user, hash);
    EmptyTable(ns);
    ReplayedNone(lines);
    var i := 0;
    while i < |lines|
      invariant 0 <= i <= |lines| && ns.Valid() && ns.seqNo == i
      invariant fresh(ns) && fresh(ns.at.Keys)
      invariant TableOf(ns) == Replayed(lines[..i])
    {
      var b := lines[i];
      label binding:
      var ok, n, l := ns.BindFS(fs(i), [], b.dst, Some(if b.after then After else Replace), b.src, b.ro);
      OneMoreBind@binding(ns, b, n, l);
      ReplayedStep(lines, i);
      i := i + 1;
    }
    assert lines[..i] == lines;
  }

  lemma ReplayedNone(lines: seq<Bind>)
    ensures Replayed(lines[..0]) == map[]
  {
  }

  lemma ReplayedStep(lines: seq<Bind>, i: nat)
    requires i < |lines|
    ensures Replayed(lines[..i + 1]) == Applied(Replayed(lines[..i]), lines[i], i + 1)
  {
    assert lines[..i + 1][..i] == lines[..i];
  }

  lemma EmptyTable(ns: Namespace)
    requires ns.Valid() && ns.at == map[ns.root := []] && ns.root.layers == []
    ensures TableOf(ns) == map[]
  {
  }

  twostate lemma OneMoreBind(new ns: Namespace, new b: Bind, new n: Node, new l: Layer)
    requires old(allocated(ns)) && old(ns.Valid()) && ns.Valid()
    requires n in ns.at && ns.at[n] == SplitPath(b.dst)
    requires InfoOf(l) == Info(b.src, b.ro, ns.seqNo, ns.seqNo % 0x1_0000_0000)
    requires forall m | m in old(ns.at) :: m in ns.at && ns.at[m] == old(ns.at)[m]
    requires forall m | m in old(ns.at) && m != n :: m.layers == old(m.layers)
    requires forall m | m in ns.at && m !in old(ns.at) && m != n :: m.layers == []
    requires n.layers == Spliced(if n in old(ns.at) then old(n.layers) else [], [l], if b.after then After else Replace)
    ensures TableOf(ns) == Applied(old(TableOf(ns)), b, ns.seqNo)
  {
    hide SplitPath, Namespace.LayersOwned, Namespace.Holds, Namespace.TreeShaped, TableOf, InfosOf;
    var t, was := TableOf(ns), old(TableOf(ns));
    var path := SplitPath(b.dst);
    var before := if n in old(ns.at) then old(n.layers) else [];
    InfosAppend(before, l);
    assert (path in was) == (before != []) by {
      if path in was {
        var m :| m in old(ns.at) && old(ns.at)[m] == path && old(m.layers) != [];
        OnePath(ns, m, n);
      }
    }
    assert t[path] == if b.after && path in was then was[path] + [InfoOf(l)] else [InfoOf(l)];
    forall p | p != path
      ensures p in t <==> p in was
      ensures p in t ==> t[p] == was[p]
    {
      if p in t {
        var m :| m in ns.at && ns.at[m] == p && m.layers != [];
      }
      if p in was {
        var m :| m in old(ns.at) && old(ns.at)[m] == p && old(m.layers) != [];
        assert m in ns.at && m != n;
      }
    }
  }

  lemma OnePath(ns: Namespace, m: Node, n: Node)
    requires ns.TreeShaped() && m in ns.at && n in ns.at && ns.at[m] == ns.at[n]
    ensures m == n
  {
  }

  lemma InfosAppend(before: seq<Layer>, l: Layer)
    ensures InfosOf([l]) == [InfoOf(l)] && InfosOf(before + [l]) == InfosOf(before) + [InfoOf(l)]
  {
  }

  lemma TableIsCanonical(ns: Namespace)
    requires ns.Valid()
    ensures forall p :: p in TableOf(ns) ==> Canonical(p)
  {
  }

  /** Listing, replaying into an empty namespace and listing again: the same labels and read-only
      marks at every path, and the same list up to the devs. */
  method ListAndRebuild(ns: Namespace, fs: nat -> nat) returns (list: seq<Bind>, copy: Namespace, again: seq<Bind>)
    requires ns.Valid()
    ensures fresh(copy) && copy.Valid() && SameButDev(again, list)
    ensures TableOf(copy).Keys == TableOf(ns).Keys
    ensures forall p :: p in TableOf(ns) ==> SameLabels(TableOf(copy)[p], TableOf(ns)[p])
  {
    hide Namespace.TreeShaped, Namespace.LayersOwned, Namespace.Holds, TableOf, IsListing, SameLabels, Canonical,
         Lines, Replayed, SameButDev;
    ghost var t := TableOf(ns);
    TableIsCanonical(ns);
    list := Binds(ns);
    ghost var points :| IsListing(t, points) && list == Lines(points);
    ReplayRestores(t, points);
    copy := Rebuild(ns.user, ns.hash, list, fs);
    again := Binds(copy);
    ghost var points2 :| IsListing(TableOf(copy), points2) && again == Lines(points2);
    ReplayedListsTheSame(t, points, points2);
  }
}
