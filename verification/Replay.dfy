/** The canonical list of what is bound where, and replaying it (ns/binds.go). */
module Replay {
  import opened Bytes
  import opened Names
  import opened Paths

  type Path = seq<Name>

  /** One layer as Binds sees it. */
  datatype Info = Info(spec: Name, ro: bool, number: nat, dev: uint32)

  /** The layers of every path that has any. */
  type Table = map<Path, seq<Info>>

  datatype Point = Point(path: Path, layers: seq<Info>)

  /** One line of the list; `after` is its disposition, replace if false. */
  datatype Bind = Bind(dst: Name, src: Name, after: bool, ro: bool, dev: uint32)

  function First(layers: seq<Info>): (m: nat)
    requires layers != []
    ensures forall i :: 0 <= i < |layers| ==> m <= layers[i].number
    ensures exists i :: 0 <= i < |layers| && layers[i].number == m
  {
    if |layers| == 1 then layers[0].number
    else
      var rest := First(layers[1..]);
      assert forall i :: 1 <= i < |layers| ==> layers[i] == layers[1..][i - 1];
      if layers[0].number < rest then layers[0].number else rest
  }

  function PathsOf(points: seq<Point>): (r: seq<Path>)
    ensures |r| == |points|
  {
    seq(|points|, i requires 0 <= i < |points| => points[i].path)
  }

  predicate NoRepeats(ps: seq<Path>)
  {
    forall i, j :: 0 <= i < j < |ps| ==> ps[i] != ps[j]
  }

  function Elements(ps: seq<Path>): set<Path>
  {
    set p | p in ps
  }

  predicate LayersFrom(t: Table, p: Point)
  {
    p.path in t && p.layers == t[p.path] && p.layers != []
  }

  predicate InOrder(points: seq<Point>)
    requires forall i :: 0 <= i < |points| ==> points[i].layers != []
  {
    forall i, j :: 0 <= i < j < |points| ==> First(points[i].layers) <= First(points[j].layers)
  }

  /** Every path once, with its layers, in the order the paths were first bound. */
  predicate IsListing(t: Table, points: seq<Point>)
  {
    && (forall i :: 0 <= i < |points| ==> LayersFrom(t, points[i]))
    && InOrder(points) && NoRepeats(PathsOf(points)) && Elements(PathsOf(points)) == t.Keys
  }

  function LineOf(path: Path, l: Info, i: nat): Bind
  {
    Bind(PathText(path), l.spec, i > 0, l.ro, l.dev)
  }

  function LinesOf(p: Point): (r: seq<Bind>)
    ensures |r| == |p.layers|
  {
    seq(|p.layers|, i requires 0 <= i < |p.layers| => LineOf(p.path, p.layers[i], i))
  }

  function Lines(points: seq<Point>): seq<Bind>
  {
    if points == [] then [] else Lines(points[..|points| - 1]) + LinesOf(points[|points| - 1])
  }

  // ----- replaying -----

  /** What binding one line does, as the number-th bind of the namespace. */
  function Applied(t: Table, b: Bind, number: nat): Table
  {
    var path := SplitPath(b.dst);
    var l := Info(b.src, b.ro, number, number % 0x1_0000_0000);
    t[path := if b.after && path in t then t[path] + [l] else [l]]
  }

  /** Line by line from the top; `done` binds came before. */
  function Replayed(bs: seq<Bind>): Table
  {
    if bs == [] then map[] else Applied(Replayed(bs[..|bs| - 1]), bs[|bs| - 1], |bs|)
  }

  predicate SameLabels(a: seq<Info>, b: seq<Info>)
  {
    |a| == |b| && forall i :: 0 <= i < |a| ==> a[i].spec == b[i].spec && a[i].ro == b[i].ro
  }

  /** The layers of a path after its lines were replayed, the first as bind number from + 1. */
  function Renumbered(layers: seq<Info>, from: nat): (r: seq<Info>)
    ensures |r| == |layers|
  {
    seq(|layers|, i requires 0 <= i < |layers| =>
      Info(layers[i].spec, layers[i].ro, from + i + 1, (from + i + 1) % 0x1_0000_0000))
  }

  predicate Bindable(points: seq<Point>)
  {
    forall i :: 0 <= i < |points| ==> points[i].layers != [] && Canonical(points[i].path)
  }

  function Rebuilt(points: seq<Point>): Table
  {
    if points == [] then map[]
    else
      var front, p := points[..|points| - 1], points[|points| - 1];
      Rebuilt(front)[p.path := Renumbered(p.layers, |Lines(front)|)]
  }

  lemma {:induction false} RebuiltKeys(points: seq<Point>)
    ensures Rebuilt(points).Keys == Elements(PathsOf(points))
    decreases |points|
  {
    if points != [] {
      var front, p := points[..|points| - 1], points[|points| - 1];
      RebuiltKeys(front);
      assert PathsOf(points) == PathsOf(front) + [p.path];
    }
  }

  lemma {:induction false} RebuiltAt(points: seq<Point>, i: nat)
    requires NoRepeats(PathsOf(points)) && i < |points|
    ensures points[i].path in Rebuilt(points)
    ensures Rebuilt(points)[points[i].path] == Renumbered(points[i].layers, |Lines(points[..i])|)
    decreases |points|
  {
    hide Lines, Renumbered;
    var k := |points| - 1;
    var front := points[..k];
    if i < k {
      assert PathsOf(front) == PathsOf(points)[..k];
      assert PathsOf(points)[i] == points[i].path && PathsOf(points)[k] == points[k].path;
      RebuiltAt(front, i);
      assert front[..i] == points[..i];
    }
  }

  /** Replaying the lines of some points gives each its own layers again, numbered through. */
  lemma {:induction false} ReplayRebuilds(points: seq<Point>)
    requires Bindable(points) && NoRepeats(PathsOf(points))
    ensures Replayed(Lines(points)) == Rebuilt(points)
    decreases |points|
  {
    hide Canonical;
    if points != [] {
      var k := |points| - 1;
      var front, p := points[..k], points[k];
      assert PathsOf(front) == PathsOf(points)[..k];
      ReplayRebuilds(front);
      RebuiltKeys(front);
      assert p.path !in PathsOf(front) by {
        assert PathsOf(points)[k] == p.path;
      }
      CanonicalReturns(p.path);
      OnePoint(Lines(front), p, |p.layers|);
      assert LinesOf(p)[..|p.layers|] == LinesOf(p) && p.layers[..|p.layers|] == p.layers;
    }
  }

  lemma CanonicalReturns(path: Path)
    requires Canonical(path)
    ensures SplitPath(PathText(path)) == path
  {
    SplitUndoesPrinting(path);
  }

  lemma {:induction false} OnePoint(before: seq<Bind>, p: Point, j: nat)
    requires SplitPath(PathText(p.path)) == p.path && p.path !in Replayed(before) && j <= |p.layers|
    ensures Replayed(before + LinesOf(p)[..j])
         == if j == 0 then Replayed(before)
            else Replayed(before)[p.path := Renumbered(p.layers[..j], |before|)]
    decreases j
  {
    hide SplitPath, PathText, Applied, Renumbered, LineOf;
    var bs := before + LinesOf(p)[..j];
    if j == 0 {
      assert bs == before;
    } else {
      var b := LineOf(p.path, p.layers[j - 1], j - 1);
      OnePoint(before, p, j - 1);
      assert bs[..|bs| - 1] == before + LinesOf(p)[..j - 1] && bs[|bs| - 1] == b;
      OneLine(Replayed(before), p, j, |before|);
    }
  }

  /** The j-th line of a point goes after the j - 1 before it. */
  lemma OneLine(t: Table, p: Point, j: nat, from: nat)
    requires SplitPath(PathText(p.path)) == p.path && p.path !in t && 0 < j <= |p.layers|
    ensures var was := if j == 1 then t else t[p.path := Renumbered(p.layers[..j - 1], from)];
            Applied(was, LineOf(p.path, p.layers[j - 1], j - 1), from + j)
            == t[p.path := Renumbered(p.layers[..j], from)]
  {
    hide SplitPath, PathText;
    var b := LineOf(p.path, p.layers[j - 1], j - 1);
    var was, now := Renumbered(p.layers[..j - 1], from), Renumbered(p.layers[..j], from);
    var l := Info(b.src, b.ro, from + j, (from + j) % 0x1_0000_0000);
    assert now[j - 1] == l;
    assert forall i :: 0 <= i < j - 1 ==> now[i] == was[i];
    assert now == was + [l];
    assert j == 1 ==> was == [];
    assert t[p.path := was][p.path := now] == t[p.path := now];
    assert b.dst == PathText(p.path) && (b.after <==> j > 1);
    if j == 1 {
      assert now == [l];
      assert Applied(t, b, from + j) == t[p.path := [l]];
    } else {
      assert Applied(t[p.path := was], b, from + j) == t[p.path := was][p.path := was + [l]];
    }
  }

  lemma ListingIsBindable(t: Table, points: seq<Point>)
    requires IsListing(t, points) && forall p :: p in t ==> Canonical(p)
    ensures Bindable(points) && Replayed(Lines(points)) == Rebuilt(points)
  {
    forall i | 0 <= i < |points|
      ensures points[i].layers != [] && Canonical(points[i].path)
    {
      assert LayersFrom(t, points[i]);
    }
    ReplayRebuilds(points);
  }

  /** Replaying the list into an empty namespace puts the same labels and read-only marks, in the
      same order, at every path. */
  lemma ReplayRestores(t: Table, points: seq<Point>)
    requires IsListing(t, points) && forall p :: p in t ==> Canonical(p)
    ensures Replayed(Lines(points)).Keys == t.Keys
    ensures forall p :: p in t ==> SameLabels(Replayed(Lines(points))[p], t[p])
  {
    ListingIsBindable(t, points);
    RebuiltKeys(points);
    hide Replayed, Lines, Canonical, Rebuilt, InOrder, NoRepeats, SameLabels, LayersFrom;
    forall p | p in t
      ensures p in Rebuilt(points) && SameLabels(Rebuilt(points)[p], t[p])
    {
      assert p in PathsOf(points);
      var i :| 0 <= i < |points| && PathsOf(points)[i] == p;
      LabelsBack(t, points, i);
    }
  }

  lemma LabelsBack(t: Table, points: seq<Point>, i: nat)
    requires IsListing(t, points) && i < |points|
    ensures points[i].path in t && points[i].path in Rebuilt(points)
    ensures SameLabels(Rebuilt(points)[points[i].path], t[points[i].path])
    ensures t[points[i].path] == points[i].layers
  {
    hide Rebuilt, Lines, InOrder, NoRepeats, Elements;
    assert LayersFrom(t, points[i]);
    RebuiltAt(points, i);
  }

  // ----- listing again -----

  predicate SameButDev(a: seq<Bind>, b: seq<Bind>)
  {
    |a| == |b| && forall i :: 0 <= i < |a| ==> a[i].(dev := 0) == b[i].(dev := 0)
  }

  lemma Lengths(points: seq<Point>, i: nat)
    requires i < |points|
    ensures |Lines(points[..i + 1])| == |Lines(points[..i])| + |points[i].layers|
  {
    assert points[..i + 1][..i] == points[..i];
  }

  lemma {:induction false} LinesGrow(points: seq<Point>, i: nat, j: nat)
    requires i < j <= |points| && forall k :: 0 <= k < |points| ==> points[k].layers != []
    ensures |Lines(points[..i])| < |Lines(points[..j])|
    decreases j
  {
    Lengths(points, j - 1);
    if i < j - 1 {
      LinesGrow(points, i, j - 1);
    }
  }

  lemma FirstOfRenumbered(layers: seq<Info>, from: nat)
    requires layers != []
    ensures First(Renumbered(layers, from)) == from + 1
  {
    var r := Renumbered(layers, from);
    assert r[0].number == from + 1;
  }

  predicate Increasing(a: seq<Path>, key: map<Path, nat>)
  {
    && (forall i :: 0 <= i < |a| ==> a[i] in key)
    && (forall i, j :: 0 <= i < j < |a| ==> key[a[i]] < key[a[j]])
  }

  lemma Tail(a: seq<Path>, key: map<Path, nat>)
    requires Increasing(a, key) && a != []
    ensures Increasing(a[1..], key) && Elements(a[1..]) == Elements(a) - {a[0]}
    ensures forall p :: p in Elements(a) ==> p in key && key[a[0]] <= key[p]
  {
    forall p
      ensures p in Elements(a[1..]) <==> p in Elements(a) && p != a[0]
    {
      if p in a[1..] {
        var i :| 0 <= i < |a| - 1 && a[1..][i] == p;
        assert a[i + 1] == p && key[a[0]] < key[a[i + 1]];
      }
    }
  }

  /** Two ways to put the same paths in increasing order of a key are one. */
  lemma {:induction false} OneOrder(a: seq<Path>, b: seq<Path>, key: map<Path, nat>)
    requires Increasing(a, key) && Increasing(b, key) && Elements(a) == Elements(b)
    ensures a == b
    decreases |a|
  {
    hide Increasing;
    SomeElement(a);
    SomeElement(b);
    if a != [] {
      Tail(a, key);
      Tail(b, key);
      assert a[0] in Elements(b) && b[0] in Elements(a);
      KeyIsOnce(a, key, b[0]);
      OneOrder(a[1..], b[1..], key);
      assert a == [a[0]] + a[1..] && b == [b[0]] + b[1..];
    }
  }

  lemma SomeElement(a: seq<Path>)
    ensures Elements(a) == {} <==> a == []
  {
    if a != [] {
      assert a[0] in Elements(a);
    }
  }

  lemma KeyIsOnce(a: seq<Path>, key: map<Path, nat>, p: Path)
    requires Increasing(a, key) && a != [] && p in a && key[p] <= key[a[0]]
    ensures p == a[0]
  {
    var i :| 0 <= i < |a| && a[i] == p;
  }

  /** Listing what a replay built gives the list that was replayed, but for the devs. */
  lemma ReplayedListsTheSame(t: Table, points: seq<Point>, again: seq<Point>)
    requires IsListing(t, points) && forall p :: p in t ==> Canonical(p)
    requires IsListing(Replayed(Lines(points)), again)
    ensures SameButDev(Lines(again), Lines(points))
  {
    ListingIsBindable(t, points);
    SameOrder(t, points, again);
    hide Replayed, Lines, Canonical, First, Rebuilt, InOrder, NoRepeats, Elements, SameLabels, LayersFrom;
    forall i | 0 <= i < |points|
      ensures again[i].path == points[i].path && SameLabels(again[i].layers, points[i].layers)
    {
      assert PathsOf(again)[i] == again[i].path && PathsOf(points)[i] == points[i].path;
      LabelsBack(t, points, i);
      ListedLayers(Rebuilt(points), again, i);
    }
    SameLines(again, points);
  }

  lemma ListedLayers(t: Table, points: seq<Point>, i: nat)
    requires IsListing(t, points) && i < |points|
    ensures points[i].path in t && t[points[i].path] == points[i].layers && points[i].layers != []
  {
    assert LayersFrom(t, points[i]);
  }

  /** Where each path of a table was first bound. */
  function Firsts(t: Table): (key: map<Path, nat>)
    ensures forall p :: p in t && t[p] != [] ==> p in key && key[p] == First(t[p])
  {
    map p | p in t && t[p] != [] :: First(t[p])
  }

  lemma SameOrder(t: Table, points: seq<Point>, again: seq<Point>)
    requires IsListing(t, points) && Bindable(points) && IsListing(Rebuilt(points), again)
    ensures PathsOf(again) == PathsOf(points)
  {
    hide Canonical, Rebuilt, Firsts, Increasing, InOrder, NoRepeats;
    RebuiltKeys(points);
    RebuiltInOrder(points);
    ListedInOrder(Rebuilt(points), again, PathsOf(points));
    OneOrder(PathsOf(again), PathsOf(points), Firsts(Rebuilt(points)));
  }

  lemma RebuiltInOrder(points: seq<Point>)
    requires Bindable(points) && NoRepeats(PathsOf(points))
    ensures Increasing(PathsOf(points), Firsts(Rebuilt(points)))
  {
    hide Canonical, Lines, Rebuilt, First, Renumbered, Firsts;
    var key, b := Firsts(Rebuilt(points)), PathsOf(points);
    forall i | 0 <= i < |points|
      ensures b[i] in key && key[b[i]] == |Lines(points[..i])| + 1
    {
      RebuiltAt(points, i);
      FirstOfRenumbered(points[i].layers, |Lines(points[..i])|);
      assert |Rebuilt(points)[points[i].path]| > 0;
    }
    forall i, j | 0 <= i < j < |b|
      ensures key[b[i]] < key[b[j]]
    {
      LinesGrow(points, i, j);
    }
  }

  lemma ListedInOrder(t: Table, again: seq<Point>, b: seq<Path>)
    requires IsListing(t, again) && Increasing(b, Firsts(t)) && Elements(b) == t.Keys
    ensures Increasing(PathsOf(again), Firsts(t))
  {
    hide First, Firsts;
    var key, a := Firsts(t), PathsOf(again);
    forall i | 0 <= i < |again|
      ensures a[i] in key && key[a[i]] == First(again[i].layers) && a[i] in Elements(b)
    {
      ListedLayers(t, again, i);
    }
    forall i, j | 0 <= i < j < |a|
      ensures key[a[i]] < key[a[j]]
    {
      Separate(b, key, a[i], a[j]);
    }
  }

  lemma Separate(b: seq<Path>, key: map<Path, nat>, p: Path, q: Path)
    requires Increasing(b, key) && p in b && q in b && p != q
    ensures key[p] != key[q]
  {
    var i :| 0 <= i < |b| && b[i] == p;
    var j :| 0 <= j < |b| && b[j] == q;
  }

  lemma {:induction false} SameLines(a: seq<Point>, b: seq<Point>)
    requires |a| == |b|
    requires forall i :: 0 <= i < |a| ==> a[i].path == b[i].path && SameLabels(a[i].layers, b[i].layers)
    ensures SameButDev(Lines(a), Lines(b))
    decreases |a|
  {
    if a != [] {
      var k := |a| - 1;
      SameLines(a[..k], b[..k]);
      hide Lines, SameLabels;
      var la, lb := LinesOf(a[k]), LinesOf(b[k]);
      assert forall i :: 0 <= i < |la| ==> la[i].(dev := 0) == lb[i].(dev := 0);
    }
  }
}
