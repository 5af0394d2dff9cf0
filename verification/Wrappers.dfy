/** Files seen through the namespace's wrappers (ns/rofile.go, ns/subtree.go, ns/file.go), over the
    in-memory filesystem: what no sequence of operations through them can do. */
module Wrappers {
  import opened Bytes
  import opened Names
  import opened FileData
  import opened MemTree

  /** A file of the filesystem, or one wrapped: Real is an nsFile inside a bound filesystem, Rooted a
      file of a served subtree, `depth` below its root. */
  datatype File =
    | Mem(n: MemNode)
    | Real(inner: File, dev: uint32)
    | ReadOnly(inner: File)
    | Rooted(inner: File, depth: nat)

  datatype Op =
    | Walk(name: Name)
    | Clone
    | Open(mode: uint32)
    | Read(offset: nat, count: nat)
    | Write(offset: nat, p: bytes)
    | Create(name: Name, perm: uint32)
    | Remove
    | WStat(name: Name, mode: uint32, length: Option<nat>)

  function CoreOf(f: File): MemNode
  {
    match f
    case Mem(n) => n
    case Real(inner, _) => CoreOf(inner)
    case ReadOnly(inner) => CoreOf(inner)
    case Rooted(inner, _) => CoreOf(inner)
  }

  /** A read-only wrapper is somewhere around the file. */
  predicate Guarded(f: File)
  {
    match f
    case Mem(_) => false
    case Real(inner, _) => Guarded(inner)
    case ReadOnly(_) => true
    case Rooted(inner, _) => Guarded(inner)
  }

  /** Open modes that ask to write, truncate or remove: OWRITE, ORDWR, OTRUNC, ORCLOSE. */
  predicate AsksToWrite(mode: uint32)
  {
    mode % 4 == 1 || mode % 4 == 2 || mode / 0x10 % 2 == 1 || mode / 0x40 % 2 == 1
  }

  function WalkFile(f: File, name: Name): Option<File>
    reads CoreOf(f)
  {
    match f
    case Mem(n) => (match WalkNode(n, name) case None => None case Some(c) => Some(Mem(c)))
    case Real(inner, dev) => (match WalkFile(inner, name) case None => None case Some(c) => Some(Real(c, dev)))
    case ReadOnly(inner) =>
      (match WalkFile(inner, name) case None => None case Some(c) => Some(if c.ReadOnly? then c else ReadOnly(c)))
    case Rooted(inner, depth) =>
      if name == DOTDOT && depth == 0 then Some(f)
      else match WalkFile(inner, name)
        case None => None
        case Some(c) => Some(Rooted(c, if name == DOTDOT then depth - 1 else depth + 1))
  }

  /** The filesystem is as it was. */
  twostate predicate Untouched(fs: FS)
    reads fs, fs.nodes
  {
    && fs.nodes == old(fs.nodes)
    && forall n | n in fs.nodes ::
         n.name == old(n.name) && n.perm == old(n.perm) && n.version == old(n.version)
         && n.data == old(n.data) && n.children == old(n.children)
  }

  /** What an operation on a file asks of the filesystem: that it is not one already removed, if it
      gets as far as removing or renaming it. */
  ghost predicate Ready(fs: FS, f: File, op: Op)
    reads fs, CoreOf(f), CoreOf(f).parent
  {
    (op.Remove? || op.WStat?) && !Guarded(f) ==> fs.Linked(CoreOf(f))
  }

  /** One operation through whatever wraps the file. `out` is the file a walk, clone or create gives. */
  method Do(fs: FS, f: File, op: Op) returns (ok: bool, out: Option<File>, data: bytes)
    requires fs.Valid() && CoreOf(f) in fs.nodes && Ready(fs, f, op)
    modifies fs, fs.nodes
    ensures fs.Valid() && old(fs.nodes) <= fs.nodes && fresh(fs.nodes - old(fs.nodes))
    ensures out.Some? ==> CoreOf(out.value) in fs.nodes
    ensures Guarded(f) ==> Untouched(fs) && (out.Some? ==> Guarded(out.value))
    ensures Guarded(f) && (op.Write? || op.Create? || op.Remove? || op.WStat? || (op.Open? && AsksToWrite(op.mode))) ==> !ok
    ensures op.Walk? ==> Untouched(fs) && out == old(WalkFile(f, op.name)) && ok == out.Some?
    ensures op.Clone? ==> Untouched(fs) && ok && out == Some(f)
    ensures op.Open? && !AsksToWrite(op.mode) ==> Untouched(fs)
    ensures op.Read? ==> Untouched(fs) && ok == !CoreOf(f).dir
                         && (ok ==> data == Slice(CoreOf(f).data, op.offset, op.count))
    ensures op.Write? && !Guarded(f) ==>
              ok == !CoreOf(f).dir && (ok ==> CoreOf(f).data == Written(old(CoreOf(f).data), op.offset, op.p))
    ensures op.Create? && !Guarded(f) ==>
              && (ok <==> CoreOf(f).dir && op.name !in old(CoreOf(f).children))
              && (ok ==> op.name in CoreOf(f).children && out == Some(Created(f, CoreOf(f).children[op.name]))
                         && CoreOf(f).children[op.name].dir == (op.perm >= DMDIR)
                         && CoreOf(f).children[op.name].perm == op.perm % PERMISSIONS)
    ensures op.Open? && !Guarded(f) ==>
              && ok == !CoreOf(f).symlink
              && CoreOf(f).data == if op.mode / 0x10 % 2 == 1 && ok && !CoreOf(f).dir then [] else old(CoreOf(f).data)
    ensures op.Remove? && !Guarded(f) && ok ==>
              CoreOf(f).parent != null && CoreOf(f).parent.children == old(CoreOf(f).parent.children) - {CoreOf(f).name}
    ensures op.WStat? && !Guarded(f) && ok ==>
              && CoreOf(f).name == (if op.name != [] then op.name else old(CoreOf(f).name))
              && CoreOf(f).perm == (if op.mode != DONT_TOUCH then op.mode % DMDIR else old(CoreOf(f).perm))
              && CoreOf(f).data == if op.length.Some? && !CoreOf(f).dir then Resized(old(CoreOf(f).data), op.length.value)
                                   else old(CoreOf(f).data)
    ensures !ok ==> out == None
    ensures !(op.Walk? || op.Clone? || op.Create?) ==> out == None
    decreases f
  {
    hide FS.Valid, WalkNode, Written, Slice, Resized;
    match f {
      case Mem(n) =>
        ok, out, data := DoMem(fs, n, op);
      case Real(inner, dev) =>
        ok, out, data := Do(fs, inner, op);
        if out.Some? {
          out := Some(Real(out.value, dev));
        }
      case ReadOnly(inner) =>
        if op.Write? || op.Create? || op.Remove? || op.WStat? || (op.Open? && AsksToWrite(op.mode)) {
          return false, None, [];
        }
        ok, out, data := Do(fs, inner, op);
        if out.Some? {
          out := Some(if op.Walk? && out.value.ReadOnly? then out.value else ReadOnly(out.value));
        }
      case Rooted(inner, depth) =>
        if op == Walk(DOTDOT) && depth == 0 {
          return true, Some(f), [];
        }
        ok, out, data := Do(fs, inner, op);
        if out.Some? && op.Walk? {
          out := Some(Rooted(out.value, if op.name == DOTDOT then depth - 1 else depth + 1));
        } else if out.Some? && op.Clone? {
          out := Some(Rooted(out.value, depth));
        }
    }
  }

  /** What a create hands back: the wrappers of the directory around the new file, but for Rooted,
      which passes the underlying file on as it is. */
  function Created(f: File, c: MemNode): File
  {
    match f
    case Mem(_) => Mem(c)
    case Real(inner, dev) => Real(Created(inner, c), dev)
    case ReadOnly(inner) => ReadOnly(Created(inner, c))
    case Rooted(inner, _) => Created(inner, c)
  }

  method DoMem(fs: FS, n: MemNode, op: Op) returns (ok: bool, out: Option<File>, data: bytes)
    requires fs.Valid() && n in fs.nodes && (op.Remove? || op.WStat? ==> fs.Linked(n))
    modifies fs, fs.nodes
    ensures fs.Valid() && old(fs.nodes) <= fs.nodes && fresh(fs.nodes - old(fs.nodes))
    ensures out.Some? ==> CoreOf(out.value) in fs.nodes
    ensures op.Walk? ==> Untouched(fs) && out == old(WalkFile(Mem(n), op.name)) && ok == out.Some?
    ensures op.Clone? ==> Untouched(fs) && ok && out == Some(Mem(n))
    ensures op.Read? ==> Untouched(fs) && ok == !n.dir && (ok ==> data == Slice(n.data, op.offset, op.count))
    ensures op.Write? ==> ok == !n.dir && (ok ==> n.data == Written(old(n.data), op.offset, op.p))
    ensures op.Open? && !AsksToWrite(op.mode) ==> Untouched(fs)
    ensures op.Create? ==>
              && (ok <==> n.dir && op.name !in old(n.children))
              && (ok ==> op.name in n.children && out == Some(Mem(n.children[op.name]))
                         && n.children[op.name].dir == (op.perm >= DMDIR)
                         && n.children[op.name].perm == op.perm % PERMISSIONS)
    ensures op.Open? ==>
              && ok == !n.symlink
              && n.data == if op.mode / 0x10 % 2 == 1 && ok && !n.dir then [] else old(n.data)
    ensures op.Remove? && ok ==>
              n.parent != null && n.parent.children == old(n.parent.children) - {n.name}
    ensures op.WStat? && ok ==>
              && n.name == (if op.name != [] then op.name else old(n.name))
              && n.perm == (if op.mode != DONT_TOUCH then op.mode % DMDIR else old(n.perm))
              && n.data == if op.length.Some? && !n.dir then Resized(old(n.data), op.length.value) else old(n.data)
    ensures !ok ==> out == None
    ensures !(op.Walk? || op.Clone? || op.Create?) ==> out == None
  {
    ok, out, data := false, None, [];
    match op {
      case Walk(name) =>
        var c := WalkNode(n, name);
        ok, out := c.Some?, if c.Some? then Some(Mem(c.value)) else None;
      case Clone =>
        ok, out := true, Some(Mem(n));
      case Open(mode) =>
        ok := n.Open(mode / 0x10 % 2 == 1);
      case Read(offset, count) =>
        var buf := new byte[count](_ => 0);
        var got := n.Read(offset, buf);
        if got.Some? {
          ok, data := true, buf[..got.value];
        }
      case Write(offset, p) =>
        var count := n.Write(offset, p);
        ok := count.Some?;
      case Create(name, perm) =>
        var c := fs.Create(n, name, perm);
        ok, out := c.Some?, if c.Some? then Some(Mem(c.value)) else None;
      case Remove =>
        ok := fs.Remove(n);
      case WStat(name, mode, length) =>
        ok := fs.WStat(n, name, mode, length);
    }
  }

  // ----- read-only -----

  /** Any sequence of operations, each on the file first given or on any that an earlier one gave
      back, leaves the whole filesystem as it was if that file is behind a read-only wrapper. */
  method RunReadOnly(fs: FS, f: File, steps: seq<(nat, Op)>) returns (held: seq<File>)
    requires fs.Valid() && CoreOf(f) in fs.nodes && Guarded(f)
    modifies fs, fs.nodes
    ensures fs.Valid() && Untouched(fs)
    ensures forall i :: 0 <= i < |held| ==> Guarded(held[i])
  {
    hide FS.Valid;
    held := [f];
    var k := 0;
    while k < |steps|
      invariant 0 <= k <= |steps| && fs.Valid() && Untouched(fs)
      invariant forall i :: 0 <= i < |held| ==> Guarded(held[i]) && CoreOf(held[i]) in fs.nodes
    {
      var (i, op) := steps[k];
      if i < |held| {
        var ok, out, data := Do(fs, held[i], op);
        if out.Some? {
          held := held + [out.value];
        }
      }
      k := k + 1;
    }
  }

  // ----- rooted -----

  /** No served subtree's wrapper is around the file. */
  predicate Bare(f: File)
  {
    match f
    case Mem(_) => true
    case Real(inner, _) => Bare(inner)
    case ReadOnly(inner) => Bare(inner)
    case Rooted(_, _) => false
  }

  /** The file is one of the subtree served at top: at top or below it, with its depth the number of
      parent links from it up to top. */
  ghost predicate Confined(f: File, top: MemNode)
  {
    match f
    case Rooted(inner, depth) =>
      Bare(inner) && Up(CoreOf(inner), depth) == top && CoreOf(inner).level == top.level + depth
    case ReadOnly(inner) => Confined(inner, top)
    case _ => false
  }

  /** A bare file walks as its node does. */
  lemma {:induction false} BareWalk(f: File, name: Name)
    requires Bare(f)
    ensures match WalkFile(f, name)
            case None => WalkNode(CoreOf(f), name) == None
            case Some(c) => Bare(c) && WalkNode(CoreOf(f), name) == Some(CoreOf(c))
  {
    match f {
      case Mem(_) =>
      case Real(inner, _) => BareWalk(inner, name);
      case ReadOnly(inner) => BareWalk(inner, name);
    }
  }

  /** Walking never leaves the subtree, whatever the name, and the depth stays true. */
  lemma {:induction false} WalkStaysConfined(fs: FS, f: File, name: Name, top: MemNode)
    requires fs.Valid() && CoreOf(f) in fs.nodes && Confined(f, top) && WalkFile(f, name).Some?
    ensures Confined(WalkFile(f, name).value, top)
  {
    match f {
      case ReadOnly(inner) => WalkStaysConfined(fs, inner, name, top);
      case Rooted(inner, depth) =>
        if !(name == DOTDOT && depth == 0) {
          BareWalk(inner, name);
        }
    }
  }

  // ----- what a create hands back -----

  lemma {:induction false} CreatedStaysBare(f: File, c: MemNode)
    requires Bare(f)
    ensures Bare(Created(f, c)) && CoreOf(Created(f, c)) == c
  {
    match f {
      case Mem(_) =>
      case Real(inner, _) => CreatedStaysBare(inner, c);
      case ReadOnly(inner) => CreatedStaysBare(inner, c);
    }
  }

  lemma {:induction false} CreatedLosesItsRoot(f: File, c: MemNode, top: MemNode)
    requires Confined(f, top)
    ensures Bare(Created(f, c)) && CoreOf(Created(f, c)) == c
  {
    match f {
      case Rooted(inner, _) => CreatedStaysBare(inner, c);
      case ReadOnly(inner) => CreatedLosesItsRoot(inner, c, top);
    }
  }

  lemma {:induction false} ConfinedBelow(f: File, top: MemNode) returns (depth: nat)
    requires Confined(f, top)
    ensures Up(CoreOf(f), depth) == top && CoreOf(f).level == top.level + depth
  {
    match f {
      case Rooted(_, d) => depth := d;
      case ReadOnly(inner) => depth := ConfinedBelow(inner, top);
    }
  }

  /** Where a path of names leads from a file, element by element. */
  ghost function WalkPath(fs: FS, f: File, path: seq<Name>): Option<File>
    requires fs.Valid() && CoreOf(f) in fs.nodes && Bare(f)
    reads fs, fs.nodes
    decreases |path|
  {
    BareWalk(f, if path == [] then [] else path[0]);
    if path == [] then Some(f)
    else match WalkFile(f, path[0]) case None => None case Some(c) => WalkPath(fs, c, path[1..])
  }

  ghost predicate Below(n: MemNode, top: MemNode)
  {
    exists k: nat :: Up(n, k) == top
  }

  lemma {:induction false} LevelsUp(fs: FS, n: MemNode, k: nat)
    requires fs.Valid() && n in fs.nodes
    ensures Up(n, k) != null ==> Up(n, k) in fs.nodes && n.level == Up(n, k).level + k && (k > 0 ==> Up(n, k).dir)
    ensures Up(n, k) == null <==> k > n.level
    decreases k
  {
    if k > 0 && n.parent != null {
      LevelsUp(fs, n.parent, k - 1);
    }
  }

  lemma {:induction false} UpTwice(n: MemNode?, j: nat, k: nat)
    ensures Up(Up(n, j), k) == Up(n, j + k)
    decreases j
  {
    if j > 0 && n != null {
      UpTwice(n.parent, j - 1, k);
    }
  }

  /** From a directory, '..' k times goes k parent links up. */
  lemma {:induction false} DotDots(fs: FS, f: File, k: nat)
    requires fs.Valid() && Bare(f) && CoreOf(f) in fs.nodes && CoreOf(f).dir && k <= CoreOf(f).level
    ensures WalkPath(fs, f, seq(k, _ => DOTDOT)).Some?
    ensures CoreOf(WalkPath(fs, f, seq(k, _ => DOTDOT)).value) == Up(CoreOf(f), k)
    decreases k
  {
    if k > 0 {
      BareWalk(f, DOTDOT);
      DotDots(fs, WalkFile(f, DOTDOT).value, k - 1);
      assert seq(k, _ => DOTDOT)[1..] == seq(k - 1, _ => DOTDOT);
    }
  }

  lemma {:induction false} NodesReached(fs: FS, f: File, path: seq<Name>)
    requires fs.Valid() && Bare(f) && CoreOf(f) in fs.nodes
    ensures WalkPath(fs, f, path).Some? ==> CoreOf(WalkPath(fs, f, path).value) in fs.nodes
    ensures WalkPath(fs, f, path).Some? && !CoreOf(f).dir ==> WalkPath(fs, f, path) == Some(f)
    decreases |path|
  {
    if path != [] {
      BareWalk(f, path[0]);
      if WalkFile(f, path[0]).Some? {
        NodesReached(fs, WalkFile(f, path[0]).value, path[1..]);
      }
    }
  }

  /** A file made through a served subtree is handed back without the subtree's wrapper. Some path of
      names then leads from it to a file that is not below the subtree's root exactly when it is a
      directory and that root is not the whole filesystem's. */
  lemma CreatedLeavesIff(fs: FS, f: File, c: MemNode, top: MemNode)
    requires fs.Valid() && Confined(f, top) && CoreOf(f) in fs.nodes && c in fs.nodes && c.parent == CoreOf(f)
    ensures Bare(Created(f, c)) && CoreOf(Created(f, c)) == c
    ensures (exists path: seq<Name> :: var r := WalkPath(fs, Created(f, c), path); r.Some? && !Below(CoreOf(r.value), top))
       <==> c.dir && top != fs.root
  {
    hide FS.Valid, Confined, WalkPath, Created;
    CreatedLosesItsRoot(f, c, top);
    var depth := ConfinedBelow(f, top);
    ChildLevel(fs, c);
    LevelsUp(fs, CoreOf(f), depth);
    var g := Created(f, c);
    if c.dir && top != fs.root {
      assert top.level > 0 by { OnlyRootIsTop(fs, top); }
      var path := seq(depth + 2, _ => DOTDOT);
      DotDots(fs, g, depth + 2);
      LevelsUp(fs, c, depth + 2);
      var out := Up(c, depth + 2);
      forall k: nat
        ensures Up(out, k) != top
      {
        LevelsUp(fs, out, k);
      }
      assert !Below(CoreOf(WalkPath(fs, g, path).value), top);
    } else {
      forall path: seq<Name> | WalkPath(fs, g, path).Some?
        ensures Below(CoreOf(WalkPath(fs, g, path).value), top)
      {
        NodesReached(fs, g, path);
        var n := CoreOf(WalkPath(fs, g, path).value);
        if top == fs.root {
          BelowRoot(fs, n);
        } else {
          assert n == c;
          assert Up(c, depth + 1) == top;
        }
      }
    }
  }

  lemma ChildLevel(fs: FS, c: MemNode)
    requires fs.Valid() && c in fs.nodes && c.parent != null
    ensures c.level == c.parent.level + 1
  {
  }

  lemma OnlyRootIsTop(fs: FS, n: MemNode)
    requires fs.Valid() && n in fs.nodes && n != fs.root
    ensures n.level > 0
  {
  }

  lemma {:induction false} BelowRoot(fs: FS, n: MemNode)
    requires fs.Valid() && n in fs.nodes
    ensures Up(n, n.level) == fs.root && Below(n, fs.root)
    decreases n.level
  {
    if n != fs.root {
      BelowRoot(fs, n.parent);
      UpTwice(n, 1, n.level - 1);
    } else {
      assert Up(n, 0) == n;
    }
  }

  /** A step of a session: something done to a file of the subtree, or by others to any file at all. */
  datatype Step = Inside(i: nat, op: Op) | Outside(i: nat, op: Op)

  ghost predicate AllConfined(fs: FS, held: seq<File>, top: MemNode)
    reads fs
  {
    forall i :: 0 <= i < |held| ==> Confined(held[i], top) && CoreOf(held[i]) in fs.nodes
  }

  ghost predicate AllThere(fs: FS, files: seq<File>)
    reads fs
  {
    forall i :: 0 <= i < |files| ==> CoreOf(files[i]) in fs.nodes
  }

  function Listed(got: Option<File>): seq<File>
  {
    if got.Some? then [got.value] else []
  }

  /** One step: the files held in the subtree gain just what was walked or cloned to there, which is in
      the subtree too. A file made through it goes to the others, as does all that others get. */
  method ConfinedStep(fs: FS, ghost top: MemNode, held: seq<File>, others: seq<File>, step: Step)
    returns (held2: seq<File>, others2: seq<File>)
    requires fs.Valid() && AllConfined(fs, held, top) && AllThere(fs, others)
    modifies fs, fs.nodes
    ensures fs.Valid() && old(fs.nodes) <= fs.nodes && fresh(fs.nodes - old(fs.nodes))
    ensures AllConfined(fs, held2, top) && AllThere(fs, others2)
    ensures step.Inside? && step.i < |held| && step.op.Walk? ==>
              held2 == held + Listed(old(WalkFile(held[step.i], step.op.name))) && others2 == others && Untouched(fs)
    ensures step.Inside? && step.i < |held| && step.op.Clone? ==>
              held2 == held + [held[step.i]] && others2 == others && Untouched(fs)
    ensures step.Inside? && step.i < |held| && step.op.Create? ==>
              var f, name := held[step.i], step.op.name;
              held2 == held
              && if !Guarded(f) && CoreOf(f).dir && name !in old(CoreOf(f).children) then
                   name in CoreOf(f).children && others2 == others + [Created(f, CoreOf(f).children[name])]
                 else others2 == others
    ensures step.Outside? || step.i >= |held| || !(step.op.Walk? || step.op.Clone? || step.op.Create?) ==> held2 == held
    ensures others <= others2
  {
    hide FS.Valid, Confined, WalkFile;
    held2, others2 := held, others;
    var i, op := step.i, step.op;
    match step {
      case Inside(_, _) =>
        if i < |held| {
          var possible := IsReady(fs, held[i], op);
          if possible {
            if op.Walk? && WalkFile(held[i], op.name).Some? {
              WalkStaysConfined(fs, held[i], op.name, top);
            }
            var ok, out, data := Do(fs, held[i], op);
            if out.Some? {
              if op.Create? {
                others2 := others + [out.value];
              } else {
                held2 := held + [out.value];
              }
            }
          }
        }
      case Outside(_, _) =>
        if i < |others| {
          var possible := IsReady(fs, others[i], op);
          if possible {
            var ok, out, data := Do(fs, others[i], op);
            if out.Some? {
              others2 := others + [out.value];
            }
          }
        }
    }
  }

  /** Whatever is walked, cloned or done inside the subtree, and whatever others create, remove, rename
      or write anywhere meanwhile, every file walked or cloned to stays in the subtree. Files made
      through it join the others. */
  method RunConfined(fs: FS, f: File, top: MemNode, steps: seq<Step>) returns (held: seq<File>, others: seq<File>)
    requires fs.Valid() && CoreOf(f) in fs.nodes && Confined(f, top)
    modifies fs, fs.nodes
    ensures fs.Valid() && held != [] && held[0] == f
    ensures forall i :: 0 <= i < |held| ==> Confined(held[i], top)
  {
    hide FS.Valid, Confined, WalkFile;
    held := [f];
    others := [Mem(fs.root)];
    RootIsThere(fs);
    var k := 0;
    while k < |steps|
      invariant 0 <= k <= |steps| && fs.Valid() && old(fs.nodes) <= fs.nodes && fresh(fs.nodes - old(fs.nodes))
      invariant AllConfined(fs, held, top) && AllThere(fs, others) && held != [] && held[0] == f
    {
      held, others := ConfinedStep(fs, top, held, others, steps[k]);
      k := k + 1;
    }
  }

  lemma RootIsThere(fs: FS)
    requires fs.Valid()
    ensures fs.root in fs.nodes
  {
  }

  /** A node its parent no longer has is not removed or renamed again. */
  method IsReady(fs: FS, f: File, op: Op) returns (r: bool)
    requires fs.Valid() && CoreOf(f) in fs.nodes
    ensures r ==> Ready(fs, f, op)
    ensures !op.Remove? && !op.WStat? ==> r
  {
    var n := CoreOf(f);
    r := !(op.Remove? || op.WStat?) || n.parent == null
         || (n.name in n.parent.children && n.parent.children[n.name] == n);
  }
}
