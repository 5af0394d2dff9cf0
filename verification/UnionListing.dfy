/** A merged listing says what walking does: through nested path binds, read-only wrappers and
    unions, a directory lists each name once, lists it exactly when walking to it succeeds, and
    gives the qid and dev of the file the walk returns (ns/file.go, ns/ns.go). */
module UnionListing {
  import opened Bytes
  import opened Messages
  import opened RoundTrip
  import opened DirPaging
  import opened DevStamp
  import opened Names
  import opened BindGraph

  predicate NoRepeats(es: seq<Stat>)
  {
    forall i, j :: 0 <= i < j < |es| ==> es[i].name != es[j].name
  }

  /** The filesystems bound: each lists a name, once, exactly when it walks to it; the entry carries
      that file's qid and dev; and the entries fit the namespace's directory buffer. */
  ghost predicate Consistent(w: World)
  {
    forall id: FileId :: ConsistentAt(w, id)
  }

  ghost predicate ConsistentAt(w: World, id: FileId)
  {
    match w.list(id)
    case None => forall name | name != DOTDOT :: w.walk(id, name) == None
    case Some(es) =>
      && NoRepeats(es) && AllSmall(es, w.unix) && !Listed(DOTDOT, es)
      && (es != [] ==> IsDir(w.qid(id)))
      && (forall name | name != DOTDOT :: Listed(name, es) <==> w.walk(id, name).Some?)
      && (forall i | 0 <= i < |es| :: BaseEntry(w, id, es[i]))
  }

  predicate BaseEntry(w: World, id: FileId, e: Stat)
  {
    && w.walk(id, e.name).Some?
    && var c := w.walk(id, e.name).value;
       && w.qid(c) == e.qid && w.stat(c).Some? && w.stat(c).value.qid == e.qid && w.stat(c).value.dev == e.dev
  }

  predicate Describes<N>(w: World, s: Space<N>, e: Stat, f: File<N>)
    requires Within(f, s.nodes)
  {
    && QidOf(w, s, f) == e.qid
    && StatOf(w, s, f).Some? && StatOf(w, s, f).value.qid == e.qid && StatOf(w, s, f).value.dev == e.dev
  }

  /** The listing of a file agrees with walking from it. */
  ghost predicate Agrees<N>(w: World, s: Space<N>, f: File<N>)
    requires Sound(s) && Within(f, s.nodes)
  {
    match List(w, s, f)
    case None => forall name: Name | name != DOTDOT :: Walk(w, s, f, name) == None
    case Some(es) =>
      && NoRepeats(es)
      && (forall name: Name | name != DOTDOT :: Listed(name, es) <==> Walk(w, s, f, name).Some?)
      && (forall i | 0 <= i < |es| ::
            && Walk(w, s, f, es[i].name).Some?
            && Describes(w, s, es[i], Walk(w, s, f, es[i].name).value))
  }

  /** No node of the tree has a child named "..", which binding at such a path would make. */
  predicate NoDotDot<N>(s: Space<N>)
  {
    forall n | n in s.nodes :: DOTDOT !in s.nodes[n].children
  }

  /** The names of the tree fit the wire. */
  predicate SmallNames<N>(s: Space<N>, unix: bool)
    requires Closed(s.nodes)
  {
    forall n | n in s.nodes :: forall k | k in s.nodes[n].children ::
      Small(TreeStat(s, s.nodes[n].children[k], k), unix)
  }

  ghost predicate Fine<N>(w: World, s: Space<N>)
  {
    Sound(s) && Consistent(w) && NoDotDot(s) && SmallNames(s, w.unix)
  }

  /** What the induction carries besides agreement. */
  ghost predicate Proper<N>(w: World, s: Space<N>, f: File<N>)
    requires Sound(s) && Within(f, s.nodes)
  {
    List(w, s, f).Some? ==>
      && AllSmall(List(w, s, f).value, w.unix) && !Listed(DOTDOT, List(w, s, f).value)
      && (List(w, s, f).value != [] ==> IsDir(QidOf(w, s, f)))
  }

  lemma {:induction false} AgreesHere<N>(w: World, s: Space<N>, f: File<N>)
    requires Fine(w, s) && Within(f, s.nodes)
    ensures Agrees(w, s, f) && Proper(w, s, f)
    decreases Height(f, s.rank), 0, f
  {
    hide Small;
    match f {
      case Base(id) =>
        assert ConsistentAt(w, id);
        if w.list(id).Some? {
          assert forall i | 0 <= i < |w.list(id).value| :: BaseEntry(w, id, w.list(id).value[i]);
        }
      case ReadOnly(inner) =>
        AgreesHere(w, s, inner);
        ReadOnlyAgrees(w, s, inner);
      case Real(inner, dev) =>
        AgreesHere(w, s, inner);
        RealAgrees(w, s, inner, dev);
      case Tree(n) =>
        forall i | 0 <= i < |s.nodes[n].layers| && s.nodes[n].layers[i].root.Some?
          ensures Agrees(w, s, s.nodes[n].layers[i].root.value) && Proper(w, s, s.nodes[n].layers[i].root.value)
        {
          AgreesHere(w, s, s.nodes[n].layers[i].root.value);
        }
        TreeAgrees(w, s, n);
    }
  }

  lemma ReadOnlyAgrees<N>(w: World, s: Space<N>, inner: File<N>)
    requires Sound(s) && Within(inner, s.nodes) && Agrees(w, s, inner) && Proper(w, s, inner)
    ensures Agrees(w, s, ReadOnly(inner)) && Proper(w, s, ReadOnly(inner))
  {
    hide Small, Sound;
    var f := ReadOnly(inner);
    assert List(w, s, f) == List(w, s, inner);
    forall name: Name
      ensures Walk(w, s, f, name).Some? <==> Walk(w, s, inner, name).Some?
      ensures Walk(w, s, f, name).Some? ==> forall e ::
                Describes(w, s, e, Walk(w, s, inner, name).value) ==> Describes(w, s, e, Walk(w, s, f, name).value)
    {
    }
  }

  lemma RealAgrees<N>(w: World, s: Space<N>, inner: File<N>, dev: uint32)
    requires Sound(s) && Within(inner, s.nodes) && Agrees(w, s, inner) && Proper(w, s, inner)
    ensures Agrees(w, s, Real(inner, dev)) && Proper(w, s, Real(inner, dev))
  {
    hide Small, Sound;
    var f := Real(inner, dev);
    forall name: Name
      ensures Walk(w, s, f, name)
           == if Walk(w, s, inner, name).Some? then Some(Real(Walk(w, s, inner, name).value, dev)) else None
    {
    }
    if List(w, s, inner).Some? {
      var es := List(w, s, inner).value;
      assert List(w, s, f).value == AllStampedWith(es, dev) || es == [];
      assert List(w, s, f).value == AllStampedWith(es, dev);
      StampKeeps(es, dev, w.unix);
    }
  }

  lemma StampKeeps(es: seq<Stat>, dev: uint32, unix: bool)
    ensures forall i :: 0 <= i < |es| ==> AllStampedWith(es, dev)[i] == StampedWith(es[i], dev)
    ensures forall name :: Listed(name, AllStampedWith(es, dev)) <==> Listed(name, es)
    ensures AllSmall(es, unix) ==> AllSmall(AllStampedWith(es, dev), unix)
  {
    var r := AllStampedWith(es, dev);
    forall name
      ensures Listed(name, r) <==> Listed(name, es)
    {
      if Listed(name, es) {
        var i :| 0 <= i < |es| && es[i].name == name;
        assert r[i].name == name;
      }
      if Listed(name, r) {
        var i :| 0 <= i < |r| && r[i].name == name;
        assert es[i].name == name;
      }
    }
    if AllSmall(es, unix) {
      forall i | 0 <= i < |r|
        ensures Small(r[i], unix)
      {
        assert Small(es[i], unix);
        if dev != 0 {
          SameSize(es[i], dev, unix);
        }
      }
    }
  }

  lemma PartsKeep(es: seq<Stat>, unix: bool)
    ensures forall i :: 0 <= i < |es| ==> PlainParts(es, unix)[i] == PlainPart(es[i], unix)
    ensures forall name :: Listed(name, PlainParts(es, unix)) <==> Listed(name, es)
    ensures AllSmall(es, unix) ==> AllSmall(PlainParts(es, unix), unix)
  {
    var r := PlainParts(es, unix);
    forall name
      ensures Listed(name, r) <==> Listed(name, es)
    {
      if Listed(name, es) {
        var i :| 0 <= i < |es| && es[i].name == name;
        assert r[i].name == name;
      }
      if Listed(name, r) {
        var i :| 0 <= i < |r| && r[i].name == name;
        assert es[i].name == name;
      }
    }
    if AllSmall(es, unix) {
      forall i | 0 <= i < |r|
        ensures Small(r[i], unix)
      {
        assert Small(es[i], unix) && StatFields(r[i], unix) == StatFields(es[i], unix);
      }
    }
  }

  // ----- unions -----

  lemma {:induction false} AddNewFacts(acc: seq<Stat>, es: seq<Stat>)
    ensures acc <= AddNew(acc, es)
    ensures NoRepeats(acc) ==> NoRepeats(AddNew(acc, es))
    ensures forall name :: Listed(name, AddNew(acc, es)) <==> Listed(name, acc) || Listed(name, es)
    ensures forall i :: |acc| <= i < |AddNew(acc, es)| ==>
              AddNew(acc, es)[i] in es && !Listed(AddNew(acc, es)[i].name, acc)
    decreases |es|
  {
    if es != [] {
      var next := if Listed(es[0].name, acc) then acc else acc + [es[0]];
      AddNewFacts(next, es[1..]);
      ListedSplit([es[0]], es[1..]);
      ListedSplit(acc, [es[0]]);
      assert [es[0]] + es[1..] == es;
      assert forall name :: Listed(name, [es[0]]) <==> [es[0]][0].name == name;
      var r := AddNew(acc, es);
      if |r| > |acc| && next != acc {
        assert r[|acc|] == es[0];
      }
      forall i | |acc| <= i < |r|
        ensures r[i] in es && !Listed(r[i].name, acc)
      {
        if i >= |next| {
          assert r[i] in es[1..] && !Listed(r[i].name, next);
        }
      }
    }
  }

  lemma ListedSplit(a: seq<Stat>, b: seq<Stat>)
    ensures forall name :: Listed(name, a + b) <==> Listed(name, a) || Listed(name, b)
  {
    forall name
      ensures Listed(name, a + b) <==> Listed(name, a) || Listed(name, b)
    {
      if Listed(name, a) {
        var i :| 0 <= i < |a| && a[i].name == name;
        assert (a + b)[i].name == name;
      }
      if Listed(name, b) {
        var i :| 0 <= i < |b| && b[i].name == name;
        assert (a + b)[|a| + i].name == name;
      }
    }
  }

  /** One layer of a node lists what it serves, each entry as the node hands that file out. */
  ghost predicate LayerAgrees<N>(w: World, s: Space<N>, n: N, i: nat)
    requires Sound(s) && n in s.nodes && i < |s.nodes[n].layers|
  {
    match LayerList(w, s, n, i)
    case None => forall name: Name | name != DOTDOT :: Hit(w, s, n, i, name) == None
    case Some(es) =>
      && AllSmall(es, w.unix) && !Listed(DOTDOT, es)
      && (forall name: Name | name != DOTDOT :: Listed(name, es) <==> Hit(w, s, n, i, name).Some?)
      && (forall e | e in es :: EntryServedBy(w, s, n, i, e))
  }

  ghost predicate EntryServedBy<N>(w: World, s: Space<N>, n: N, i: nat, e: Stat)
    requires Sound(s) && n in s.nodes && i < |s.nodes[n].layers|
  {
    && Hit(w, s, n, i, e.name).Some?
    && Describes(w, s, e, Real(Hit(w, s, n, i, e.name).value, s.nodes[n].layers[i].dev))
  }

  lemma LayerListAgrees<N>(w: World, s: Space<N>, n: N, i: nat)
    requires Sound(s) && n in s.nodes && i < |s.nodes[n].layers|
    requires var root := s.nodes[n].layers[i].root;
             root.Some? ==> Agrees(w, s, root.value) && Proper(w, s, root.value)
    ensures LayerAgrees(w, s, n, i)
  {
    hide Small, Sound, Walk, List, Describes, NoRepeats;
    var l := s.nodes[n].layers[i];
    match l.root
    case None =>
    case Some(root) =>
      WithinLayer(s, n, i);
      match List(w, s, root)
      case None =>
        forall name: Name | name != DOTDOT
          ensures Hit(w, s, n, i, name) == None
        {
          assert Walk(w, s, root, name) == None;
        }
      case Some(es) =>
        var parts := PlainParts(es, w.unix);
        PartsKeep(es, w.unix);
        StampKeeps(parts, l.dev, w.unix);
        var r := AllStampedWith(parts, l.dev);
        assert LayerList(w, s, n, i) == Some(r);
        forall e | e in r
          ensures EntryServedBy(w, s, n, i, e)
        {
          var k :| 0 <= k < |r| && r[k] == e;
          PartDescribes(w, s, n, i, es[k]);
          StampedEntry(w, s, n, i, parts[k]);
        }
  }

  /** What a plain connection drops of an entry does not say which file it is. */
  lemma PartDescribes<N>(w: World, s: Space<N>, n: N, i: nat, e: Stat)
    requires Sound(s) && n in s.nodes && i < |s.nodes[n].layers| && s.nodes[n].layers[i].root.Some?
    requires Within(s.nodes[n].layers[i].root.value, s.nodes)
    requires var root := s.nodes[n].layers[i].root.value;
             Walk(w, s, root, e.name).Some? && Describes(w, s, e, Walk(w, s, root, e.name).value)
    ensures var root, p := s.nodes[n].layers[i].root.value, PlainPart(e, w.unix);
            p.name == e.name && Walk(w, s, root, p.name).Some? && Describes(w, s, p, Walk(w, s, root, p.name).value)
  {
    hide Sound, Walk;
  }

  lemma StampedEntry<N>(w: World, s: Space<N>, n: N, i: nat, e: Stat)
    requires Sound(s) && n in s.nodes && i < |s.nodes[n].layers| && s.nodes[n].layers[i].root.Some?
    requires Within(s.nodes[n].layers[i].root.value, s.nodes)
    requires var root := s.nodes[n].layers[i].root.value;
             Walk(w, s, root, e.name).Some? && Describes(w, s, e, Walk(w, s, root, e.name).value)
    ensures EntryServedBy(w, s, n, i, StampedWith(e, s.nodes[n].layers[i].dev))
  {
    hide Sound, Walk;
    var c := Walk(w, s, s.nodes[n].layers[i].root.value, e.name).value;
    var l := s.nodes[n].layers[i];
    assert StampedWith(e, l.dev).name == e.name;
    assert Hit(w, s, n, i, e.name) == Some(c);
  }

  /** What the first k layers of a union have added up to. */
  ghost predicate MergedWell<N>(w: World, s: Space<N>, n: N, k: nat)
    requires Sound(s) && n in s.nodes && k <= |s.nodes[n].layers|
  {
    var m := Merged(w, s, n, k);
    && NoRepeats(m) && AllSmall(m, w.unix) && !Listed(DOTDOT, m)
    && (forall name: Name | name != DOTDOT ::
          Listed(name, m) <==> name in s.nodes[n].children || Serving(w, s, n, name, 0) < k)
    && (forall i | 0 <= i < |m| :: EntryOfUnion(w, s, n, m[i]))
  }

  ghost predicate EntryOfUnion<N>(w: World, s: Space<N>, n: N, e: Stat)
    requires Sound(s) && n in s.nodes
  {
    if e.name in s.nodes[n].children then e == TreeStat(s, s.nodes[n].children[e.name], e.name)
    else
      var i := Serving(w, s, n, e.name, 0);
      i < |s.nodes[n].layers| && EntryServedBy(w, s, n, i, e)
  }

  lemma {:induction false} MergeStep<N>(w: World, s: Space<N>, n: N, k: nat)
    requires Fine(w, s) && n in s.nodes && k <= |s.nodes[n].layers|
    requires forall i | 0 <= i < k :: LayerAgrees(w, s, n, i)
    ensures MergedWell(w, s, n, k)
    decreases k
  {
    hide Small, Consistent;
    if k == 0 {
      ChildrenWell(w, s, n);
    } else {
      MergeStep(w, s, n, k - 1);
      var m := Merged(w, s, n, k - 1);
      assert LayerAgrees(w, s, n, k - 1);
      match LayerList(w, s, n, k - 1)
      case None =>
        assert Merged(w, s, n, k) == m;
      case Some(es) =>
        assert Merged(w, s, n, k) == AddNew(m, es);
        OneMoreLayer(w, s, n, k - 1, m, es);
    }
  }

  lemma ChildrenWell<N>(w: World, s: Space<N>, n: N)
    requires Fine(w, s) && n in s.nodes
    ensures MergedWell(w, s, n, 0)
  {
    hide Small, Consistent, Ranked, Serving, Hit, Sorted, ChildEntries;
    var names := Sorted(s.nodes[n].children.Keys);
    var m := Merged(w, s, n, 0);
    assert m == ChildEntries(s, n, names);
    forall name: Name
      ensures Listed(name, m) <==> name in s.nodes[n].children
    {
      if name in s.nodes[n].children {
        var i :| 0 <= i < |names| && names[i] == name;
        assert m[i].name == name;
      }
    }
    forall i | 0 <= i < |m|
      ensures Small(m[i], w.unix) && EntryOfUnion(w, s, n, m[i])
    {
      assert names[i] in s.nodes[n].children;
    }
  }

  lemma OneMoreLayer<N>(w: World, s: Space<N>, n: N, k: nat, m: seq<Stat>, es: seq<Stat>)
    requires Sound(s) && n in s.nodes && k < |s.nodes[n].layers|
    requires MergedWell(w, s, n, k) && m == Merged(w, s, n, k)
    requires LayerAgrees(w, s, n, k) && LayerList(w, s, n, k) == Some(es)
    ensures MergedWell(w, s, n, k + 1)
  {
    hide Small, Sound, Serving, Hit, EntryServedBy, AddNew, LayerList;
    AddNewFacts(m, es);
    var r := AddNew(m, es);
    assert Merged(w, s, n, k + 1) == r;
    forall name: Name | name != DOTDOT
      ensures Listed(name, r) <==> name in s.nodes[n].children || Serving(w, s, n, name, 0) < k + 1
    {
      ServingAt(w, s, n, name, k);
      assert Listed(name, es) <==> Hit(w, s, n, k, name).Some?;
      assert Listed(name, m) <==> name in s.nodes[n].children || Serving(w, s, n, name, 0) < k;
    }
    forall i | 0 <= i < |r|
      ensures Small(r[i], w.unix) && EntryOfUnion(w, s, n, r[i])
    {
      if i < |m| {
        assert r[i] == m[i];
      } else {
        NewEntry(w, s, n, k, m, es, r[i]);
      }
    }
  }

  lemma ServingAt<N>(w: World, s: Space<N>, n: N, name: Name, k: nat)
    requires Sound(s) && n in s.nodes && k < |s.nodes[n].layers|
    ensures Hit(w, s, n, k, name).Some? ==> Serving(w, s, n, name, 0) <= k
    ensures Serving(w, s, n, name, 0) == k ==> Hit(w, s, n, k, name).Some?
  {
    hide Sound;
    var r := Serving(w, s, n, name, 0);
    assert k < r ==> Hit(w, s, n, k, name) == None;
  }

  lemma NewEntry<N>(w: World, s: Space<N>, n: N, k: nat, m: seq<Stat>, es: seq<Stat>, e: Stat)
    requires Sound(s) && n in s.nodes && k < |s.nodes[n].layers|
    requires MergedWell(w, s, n, k) && m == Merged(w, s, n, k)
    requires LayerAgrees(w, s, n, k) && LayerList(w, s, n, k) == Some(es)
    requires e in es && !Listed(e.name, m)
    ensures Small(e, w.unix) && EntryOfUnion(w, s, n, e)
  {
    hide Small, Sound, Serving, Hit, EntryServedBy, LayerList, Merged;
    var j :| 0 <= j < |es| && es[j] == e;
    assert Small(es[j], w.unix) && Listed(e.name, es);
    assert EntryServedBy(w, s, n, k, e);
    ServingAt(w, s, n, e.name, k);
  }

  lemma TreeAgrees<N>(w: World, s: Space<N>, n: N)
    requires Fine(w, s) && n in s.nodes
    requires forall i | 0 <= i < |s.nodes[n].layers| && s.nodes[n].layers[i].root.Some? ::
               Agrees(w, s, s.nodes[n].layers[i].root.value) && Proper(w, s, s.nodes[n].layers[i].root.value)
    ensures Agrees(w, s, Tree(n)) && Proper(w, s, Tree(n))
  {
    hide Small, Consistent, Agrees, Proper;
    var layers := s.nodes[n].layers;
    forall i | 0 <= i < |layers|
      ensures LayerAgrees(w, s, n, i)
    {
      LayerListAgrees(w, s, n, i);
    }
    MergeStep(w, s, n, |layers|);
    UnionAgrees(w, s, n);
  }

  lemma UnionAgrees<N>(w: World, s: Space<N>, n: N)
    requires Sound(s) && n in s.nodes && NoDotDot(s)
    requires MergedWell(w, s, n, |s.nodes[n].layers|)
    requires forall i | 0 <= i < |s.nodes[n].layers| :: LayerAgrees(w, s, n, i)
    ensures Agrees(w, s, Tree(n)) && Proper(w, s, Tree(n))
  {
    hide Small, Sound;
    var layers := s.nodes[n].layers;
    var f := Tree(n);
    if List(w, s, f) == None {
      assert AllFail(w, s, n);
      forall j, name: Name | 0 <= j < |layers| && name != DOTDOT
        ensures Hit(w, s, n, j, name) == None
      {
        assert LayerAgrees(w, s, n, j) && LayerList(w, s, n, j) == None;
      }
      assert forall name: Name :: Serving(w, s, n, name, 0) <= |layers|;
    } else {
      var m := Merged(w, s, n, |layers|);
      forall i | 0 <= i < |m|
        ensures Walk(w, s, f, m[i].name).Some? && Describes(w, s, m[i], Walk(w, s, f, m[i].name).value)
      {
        assert Listed(m[i].name, m) && EntryOfUnion(w, s, n, m[i]);
      }
      assert forall name: Name | name != DOTDOT :: Listed(name, m) <==> Walk(w, s, f, name).Some?;
    }
    assert IsDir(QidOf(w, s, f));
  }

  /** Over consistent filesystems every node and every file agrees with its listing exactly when no
      node has a child named "..": such a child is listed and can never be walked to. */
  lemma ListingMatchesWalk<N>(w: World, s: Space<N>)
    requires Sound(s) && Consistent(w) && SmallNames(s, w.unix)
    ensures NoDotDot(s) <==> forall n | n in s.nodes :: Agrees(w, s, Tree(n))
  {
    hide Agrees, Consistent, SmallNames;
    if NoDotDot(s) {
      forall n | n in s.nodes
        ensures Agrees(w, s, Tree(n))
      {
        AgreesHere(w, s, Tree(n));
      }
    } else {
      var n :| n in s.nodes && DOTDOT in s.nodes[n].children;
      DotDotDisagrees(w, s, n);
    }
  }

  lemma DotDotDisagrees<N>(w: World, s: Space<N>, n: N)
    requires Sound(s) && n in s.nodes && DOTDOT in s.nodes[n].children
    ensures !Agrees(w, s, Tree(n))
  {
    hide Small, Sound, LayerList, Serving, Describes, NoRepeats;
    StillMerged(w, s, n, |s.nodes[n].layers|);
    var m := Merged(w, s, n, |s.nodes[n].layers|);
    assert List(w, s, Tree(n)) == Some(m);
    var names := Sorted(s.nodes[n].children.Keys);
    var i :| 0 <= i < |names| && names[i] == DOTDOT;
    assert m[i].name == DOTDOT;
    assert Walk(w, s, Tree(n), DOTDOT) == None;
  }

  /** Layers only add after the tree's own children. */
  lemma {:induction false} StillMerged<N>(w: World, s: Space<N>, n: N, k: nat)
    requires Sound(s) && n in s.nodes && k <= |s.nodes[n].layers|
    ensures var names := Sorted(s.nodes[n].children.Keys); var m := Merged(w, s, n, k);
            |names| <= |m| && forall i :: 0 <= i < |names| ==> m[i].name == names[i]
    decreases k
  {
    hide Small, Ranked, LayerList, AddNew, Sorted, ChildEntries;
    if k == 0 {
      assert Merged(w, s, n, 0) == ChildEntries(s, n, Sorted(s.nodes[n].children.Keys));
    } else {
      StillMerged(w, s, n, k - 1);
      var before := Merged(w, s, n, k - 1);
      match LayerList(w, s, n, k - 1)
      case None =>
        assert Merged(w, s, n, k) == before;
      case Some(es) =>
        AddNewFacts(before, es);
        assert Merged(w, s, n, k) == AddNew(before, es);
    }
  }
}
