/** Paths as text: how the namespace splits and prints them (ns/ns.go, ns/binds.go). */
module Paths {
  import opened Bytes
  import opened Names

  function TrimLeft(p: Name): (r: Name)
    ensures r == [] || r[0] != SLASH
  {
    if p != [] && p[0] == SLASH then TrimLeft(p[1..]) else p
  }

  function TrimRight(p: Name): (r: Name)
    ensures r <= p
    ensures r == [] || r[|r| - 1] != SLASH
  {
    if p != [] && p[|p| - 1] == SLASH then TrimRight(p[..|p| - 1]) else p
  }

  /** Between every two slashes, an element: empty ones too. */
  function Split(p: Name): (r: seq<Name>)
    ensures r != []
  {
    if p == [] then [[]]
    else if p[0] == SLASH then [[]] + Split(p[1..])
    else var rest := Split(p[1..]); [[p[0]] + rest[0]] + rest[1..]
  }

  /** strings.Trim, then strings.Split. */
  function SplitPath(p: Name): seq<Name>
  {
    var t := TrimRight(TrimLeft(p));
    if t == [] then [] else Split(t)
  }

  function Printed(path: seq<Name>): Name
  {
    if path == [] then [] else [SLASH] + path[0] + Printed(path[1..])
  }

  /** How Binds prints the path of a node. */
  function PathText(path: seq<Name>): Name
  {
    if path == [] then [SLASH] else Printed(path)
  }

  predicate NoSlash(path: seq<Name>)
  {
    forall i :: 0 <= i < |path| ==> SLASH !in path[i]
  }

  /** The paths splitting can give: only inner elements may be empty. */
  predicate Canonical(path: seq<Name>)
  {
    NoSlash(path) && (path != [] ==> path[0] != [] && path[|path| - 1] != [])
  }

  lemma SplitStep(p: Name)
    requires p != []
    ensures var rest := Split(p[1..]);
            Split(p) == if p[0] == SLASH then [[]] + rest else [[p[0]] + rest[0]] + rest[1..]
  {
  }

  lemma {:induction false} SplitHasNoSlash(p: Name)
    ensures NoSlash(Split(p))
    ensures p != [] && p[0] != SLASH ==> Split(p)[0] != []
    ensures p != [] && p[|p| - 1] != SLASH ==> Split(p)[|Split(p)| - 1] != []
  {
    if p != [] {
      SplitHasNoSlash(p[1..]);
      SplitStep(p);
      hide Split;
      var rest, all := Split(p[1..]), Split(p);
      forall i | 0 <= i < |all|
        ensures SLASH !in all[i]
      {
        assert all[i] == if p[0] == SLASH then (if i == 0 then [] else rest[i - 1])
                         else if i == 0 then [p[0]] + rest[0] else rest[i];
      }
    }
  }

  lemma SplitPathIsCanonical(p: Name)
    ensures Canonical(SplitPath(p))
  {
    var t := TrimRight(TrimLeft(p));
    SplitHasNoSlash(t);
  }

  lemma {:induction false} SplitConcat(a: Name, b: Name)
    requires SLASH !in a
    ensures Split(a) == [a]
    ensures Split(a + [SLASH] + b) == [a] + Split(b)
  {
    if a == [] {
      assert a + [SLASH] + b == [SLASH] + b;
      assert ([SLASH] + b)[1..] == b;
    } else {
      SplitConcat(a[1..], b);
      assert (a + [SLASH] + b)[0] == a[0] && (a + [SLASH] + b)[1..] == a[1..] + [SLASH] + b;
      assert [a[0]] + a[1..] == a;
    }
  }

  /** Dropping the leading slash of a printed path and splitting gives the path. */
  lemma {:induction false} SplitPrinted(path: seq<Name>)
    requires path != [] && NoSlash(path)
    ensures Printed(path) != [] && Printed(path)[0] == SLASH && Split(Printed(path)[1..]) == path
    decreases |path|
  {
    assert ([SLASH] + path[0] + Printed(path[1..]))[1..] == path[0] + Printed(path[1..]);
    if |path| == 1 {
      assert path[0] + Printed(path[1..]) == path[0];
      SplitConcat(path[0], []);
      assert path == [path[0]];
    } else {
      SplitPrinted(path[1..]);
      var rest := Printed(path[1..]);
      assert rest == [SLASH] + rest[1..];
      assert path[0] + rest == path[0] + [SLASH] + rest[1..];
      SplitConcat(path[0], rest[1..]);
      assert path == [path[0]] + path[1..];
    }
  }

  lemma {:induction false} PrintedEnd(path: seq<Name>)
    requires path != [] && NoSlash(path) && path[|path| - 1] != []
    ensures Printed(path)[|Printed(path)| - 1] != SLASH
    decreases |path|
  {
    if |path| > 1 {
      PrintedEnd(path[1..]);
      SplitPrinted(path[1..]);
      var rest := Printed(path[1..]);
      assert Printed(path) == ([SLASH] + path[0]) + rest;
    } else {
      assert Printed(path) == [SLASH] + path[0];
    }
  }

  /** Splitting undoes printing for exactly the paths that splitting can give. */
  lemma SplitUndoesPrinting(path: seq<Name>)
    requires NoSlash(path)
    ensures SplitPath(PathText(path)) == path <==> Canonical(path)
  {
    if Canonical(path) && path != [] {
      SplitPrinted(path);
      PrintedEnd(path);
      var text := Printed(path);
      assert text[1..][0] == path[0][0];
      assert TrimLeft(text) == TrimLeft(text[1..]) == text[1..];
      assert TrimRight(text[1..]) == text[1..];
    } else if path == [] {
      assert TrimLeft([SLASH]) == TrimLeft([SLASH][1..]) == [];
    }
    SplitPathIsCanonical(PathText(path));
  }
}
