/** Path elements: byte strings in the order of Go's string comparison. */
module Names {
  import opened Bytes

  type Name = bytes

  const DOTDOT: Name := [0x2e, 0x2e]
  const SLASH: byte := 0x2f

  predicate AtMost(a: Name, b: Name)
  {
    a == [] || (b != [] && (a[0] < b[0] || (a[0] == b[0] && AtMost(a[1..], b[1..]))))
  }

  lemma {:induction false} AtMostTotal(a: Name, b: Name)
    ensures AtMost(a, b) || AtMost(b, a)
    ensures AtMost(a, b) && AtMost(b, a) ==> a == b
  {
    if a != [] && b != [] {
      AtMostTotal(a[1..], b[1..]);
      assert a == [a[0]] + a[1..] && b == [b[0]] + b[1..];
    }
  }

  lemma {:induction false} AtMostTransitive(a: Name, b: Name, c: Name)
    requires AtMost(a, b) && AtMost(b, c)
    ensures AtMost(a, c)
  {
    if a != [] && a[0] == b[0] == c[0] {
      AtMostTransitive(a[1..], b[1..], c[1..]);
    }
  }

  /** Ascending, so without repeats. */
  predicate Ascending(s: seq<Name>)
  {
    forall i, j :: 0 <= i < j < |s| ==> AtMost(s[i], s[j]) && s[i] != s[j]
  }

  predicate IsLeast(x: Name, names: set<Name>)
  {
    x in names && forall y :: y in names ==> AtMost(x, y)
  }

  lemma LeastExists(names: set<Name>) returns (least: Name)
    requires names != {}
    ensures IsLeast(least, names)
    decreases names
  {
    var x :| x in names;
    AtMostTotal(x, x);
    if names == {x} {
      least := x;
    } else {
      var other := LeastExists(names - {x});
      AtMostTotal(x, other);
      least := if AtMost(x, other) then x else other;
      forall y | y in names
        ensures AtMost(least, y)
      {
        if AtMost(x, other) && y != x {
          AtMostTransitive(x, other, y);
        }
      }
    }
  }

  ghost function Least(names: set<Name>): (least: Name)
    requires names != {}
    ensures IsLeast(least, names)
  {
    assert exists x :: IsLeast(x, names) by {
      var x := LeastExists(names);
    }
    var x :| IsLeast(x, names);
    x
  }

  /** The names in ascending order. */
  ghost function Sorted(names: set<Name>): (s: seq<Name>)
    ensures forall x :: x in s <==> x in names
    ensures Ascending(s)
    decreases names
  {
    if names == {} then [] else [Least(names)] + Sorted(names - {Least(names)})
  }

  /** There is only one ascending arrangement of a set of names. */
  lemma {:induction false} SortedIsUnique(s: seq<Name>, names: set<Name>)
    requires Ascending(s) && forall x :: x in s <==> x in names
    ensures s == Sorted(names)
    decreases |s|
  {
    if s == [] {
      assert names == {};
    } else {
      assert s[0] in names && Least(names) in s;
      AtMostTotal(s[0], Least(names));
      assert s == [s[0]] + s[1..];
      forall x
        ensures x in s[1..] <==> x in names - {s[0]}
      {
        if x in s[1..] {
          var j :| 0 <= j < |s| - 1 && s[1..][j] == x;
          assert s[j + 1] == x && s[0] != s[j + 1];
        }
      }
      SortedIsUnique(s[1..], names - {s[0]});
    }
  }

  /** sort.Strings over the keys of a map: an insertion-ordered list, ordered. */
  method SortStrings(names: set<Name>) returns (s: seq<Name>)
    ensures s == Sorted(names)
  {
    s := [];
    var left := names;
    while left != {}
      invariant left <= names && Ascending(s)
      invariant forall x :: x in s <==> x in names - left
      decreases left
    {
      var x :| x in left;
      s := Insert(s, x);
      left := left - {x};
    }
    SortedIsUnique(s, names);
  }

  method Insert(s: seq<Name>, x: Name) returns (r: seq<Name>)
    requires Ascending(s) && x !in s
    ensures Ascending(r) && forall y :: y in r <==> y in s || y == x
  {
    var i := 0;
    while i < |s| && AtMost(s[i], x)
      invariant 0 <= i <= |s|
      invariant forall j :: 0 <= j < i ==> AtMost(s[j], x)
    {
      i := i + 1;
    }
    r := s[..i] + [x] + s[i..];
    if i < |s| {
      AtMostTotal(s[i], x);
      forall j | i <= j < |s|
        ensures AtMost(x, s[j])
      {
        if j > i {
          AtMostTransitive(x, s[i], s[j]);
        }
      }
    }
    assert forall y :: y in s ==> y in s[..i] || y in s[i..];
  }
}
