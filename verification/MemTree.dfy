/** The in-memory filesystem's tree (examples/memfs/memfs.go). */
module MemTree {
  import opened Bytes
  import opened Names
  import opened FileData

  /** A node's version counts the changes to its data, and wraps. */
  function NextVersion(v: uint32): uint32
  {
    if v == 0xFFFF_FFFF then 0 else v + 1
  }

  /** The version after n changes. */
  function Later(v: uint32, n: nat): uint32
    decreases n
  {
    if n == 0 then v else Later(NextVersion(v), n - 1)
  }

  /** A mode's permission bits, octal 777, are what it leaves modulo this. */
  const PERMISSIONS: uint32 := 0x200
  const DMDIR: uint32 := 0x8000_0000

  class MemNode {
    var name: Name
    const dir: bool
    const symlink: bool
    const parent: MemNode?
    var perm: uint32
    var version: uint32
    var data: bytes
    var children: map<Name, MemNode>
    /** How many parent links up to the filesystem's root. */
    ghost const level: nat

    constructor (name: Name, dir: bool, symlink: bool, parent: MemNode?, perm: uint32, ghost level: nat)
      ensures this.name == name && this.dir == dir && this.symlink == symlink && this.parent == parent
      ensures this.perm == perm && this.level == level && data == [] && children == map[] && version == 0
    {
      this.name, this.dir, this.symlink, this.parent, this.perm, this.level := name, dir, symlink, parent, perm, level;
      version, data, children := 0, [], map[];
    }

    /** A regular file's bytes; None for a directory, whose listing is read instead. */
    method Read(offset: nat, p: array<byte>) returns (n: Option<nat>)
      modifies p
      ensures n == if dir then None else Some(|Slice(data, offset, p.Length)|)
      ensures n.Some? ==> p[..n.value] == Slice(data, offset, p.Length)
      ensures forall k :: (if n.Some? then n.value else 0) <= k < p.Length ==> p[k] == old(p[k])
    {
      if dir {
        return None;
      }
      if offset >= |data| {
        return Some(0);
      }
      var count := if |data| - offset < p.Length then |data| - offset else p.Length;
      forall k | 0 <= k < count {
        p[k] := data[offset + k];
      }
      return Some(count);
    }

    method Write(offset: nat, p: bytes) returns (count: Option<nat>)
      modifies this`data, this`version
      ensures count == if dir then None else Some(|p|)
      ensures data == if dir then old(data) else Written(old(data), offset, p)
      ensures version == if dir then old(version) else NextVersion(old(version))
    {
      if dir {
        return None;
      }
      var end := offset + |p|;
      if end > |data| {
        data := Resized(data, end);
      }
      data := data[..offset] + p + data[end..];
      version := NextVersion(version);
      return Some(|p|);
    }

    /** The part of a stat change that is not a rename. */
    method Retouch(mode: uint32, length: Option<nat>)
      modifies this`perm, this`data, this`version
      ensures perm == if mode != DONT_TOUCH then mode % DMDIR else old(perm)
      ensures data == if length.Some? && !dir then Resized(old(data), length.value) else old(data)
      ensures version == if length.Some? && !dir then NextVersion(old(version)) else old(version)
    {
      if mode != DONT_TOUCH {
        perm := mode % DMDIR;
      }
      if length.Some? && !dir {
        data := Resized(data, length.value);
        version := NextVersion(version);
      }
    }

    /** Opening a regular file for truncation empties it; a symlink is not opened. */
    method Open(truncate: bool) returns (ok: bool)
      modifies this`data, this`version
      ensures ok == !symlink
      ensures data == if truncate && ok && !dir then [] else old(data)
      ensures version == if truncate && ok && !dir then NextVersion(old(version)) else old(version)
    {
      if symlink {
        return false;
      }
      if truncate && !dir {
        data := [];
        version := NextVersion(version);
      }
      return true;
    }
  }

  const DONT_TOUCH: uint32 := 0xFFFF_FFFF

  class FS {
    const root: MemNode
    ghost var nodes: set<MemNode>

    /** Every child's parent is the directory it is in, under its own name. A removed node keeps its
        parent link. */
    ghost predicate Valid()
      reads this, nodes
    {
      && root in nodes && root.parent == null && root.dir && root.level == 0
      && (forall n | n in nodes ::
            && (n.parent == null <==> n == root)
            && (n.parent != null ==> n.parent in nodes && n.parent.dir && n.level == n.parent.level + 1)
            && (n.children != map[] ==> n.dir))
      && (forall n, k | n in nodes && k in n.children ::
            n.children[k] in nodes && n.children[k].parent == n && n.children[k].name == k)
    }

    constructor ()
      ensures Valid() && fresh(nodes) && root.children == map[]
    {
      root := new MemNode([SLASH], true, false, null, 0x1ED, 0);
      new;
      nodes := {root};
    }

    /** The directory bit of perm says what is made, and only its permission bits are kept. */
    method Create(n: MemNode, name: Name, perm: uint32) returns (child: Option<MemNode>)
      requires Valid() && n in nodes
      modifies this, n`children
      ensures Valid() && fresh(nodes - old(nodes))
      ensures child.Some? <==> n.dir && name !in old(n.children)
      ensures child.Some? ==>
                && fresh(child.value) && nodes == old(nodes) + {child.value}
                && n.children == old(n.children)[name := child.value]
                && child.value.parent == n && child.value.dir == (perm >= DMDIR) && child.value.perm == perm % PERMISSIONS
                && child.value.data == [] && child.value.children == map[] && child.value.version == 0
      ensures child == None ==> nodes == old(nodes) && n.children == old(n.children)
    {
      if !n.dir || name in n.children {
        return None;
      }
      var c := new MemNode(name, perm >= DMDIR, false, n, perm % PERMISSIONS, n.level + 1);
      n.children := n.children[name := c];
      nodes := nodes + {c};
      return Some(c);
    }

    /** Whether its parent still has the node; a removed one is not renamed or removed again. */
    ghost predicate Linked(n: MemNode)
      reads n, n.parent
    {
      n.parent != null ==> n.name in n.parent.children && n.parent.children[n.name] == n
    }

    /** Within its directory, to a name not taken there. */
    method Rename(n: MemNode, name: Name) returns (ok: bool)
      requires Valid() && n in nodes && Linked(n) && name != n.name
      modifies n`name, nodes`children
      ensures Valid() && Linked(n)
      ensures ok <==> n.parent != null && name !in old(n.parent.children)
      ensures n.name == if ok then name else old(n.name)
      ensures ok ==> n.parent.children == (old(n.parent.children) - {old(n.name)})[name := n]
      ensures forall m | m in nodes && (!ok || m != n.parent) :: m.children == old(m.children)
    {
      if n.parent == null || name in n.parent.children {
        return false;
      }
      assert n.level == n.parent.level + 1;
      n.parent.children := n.parent.children - {n.name};
      n.name := name;
      n.parent.children := n.parent.children[name := n];
      return true;
    }

    /** Renames, changes permissions, truncates or extends: each only if asked. A rename that is
        refused refuses the rest too. */
    method WStat(n: MemNode, name: Name, mode: uint32, length: Option<nat>) returns (ok: bool)
      requires Valid() && n in nodes && Linked(n)
      modifies n, nodes`children
      ensures Valid() && Linked(n)
      ensures ok <==> name == [] || name == old(n.name) || (n.parent != null && name !in old(n.parent.children))
      ensures n.name == if ok && name != [] then name else old(n.name)
      ensures ok && name != [] && n.parent != null ==>
                n.parent.children == (old(n.parent.children) - {old(n.name)})[name := n]
      ensures n.perm == if ok && mode != DONT_TOUCH then mode % DMDIR else old(n.perm)
      ensures n.data == if ok && length.Some? && !n.dir then Resized(old(n.data), length.value) else old(n.data)
      ensures n.version == if ok && length.Some? && !n.dir then NextVersion(old(n.version)) else old(n.version)
      ensures forall m | m in nodes && (!ok || name == [] || m != n.parent) :: m.children == old(m.children)
    {
      if name != [] && name != n.name {
        var renamed := Rename(n, name);
        if !renamed {
          return false;
        }
      } else if n.parent != null {
        assert n.parent.children == (n.parent.children - {n.name})[n.name := n];
      }
      n.Retouch(mode, length);
      return true;
    }

    method Remove(n: MemNode) returns (ok: bool)
      requires Valid() && n in nodes && Linked(n)
      modifies nodes`children
      ensures Valid()
      ensures ok <==> n.parent != null && (n.dir ==> old(n.children) == map[])
      ensures ok ==> n.parent.children == old(n.parent.children) - {n.name}
      ensures forall m | m in nodes && (!ok || m != n.parent) :: m.children == old(m.children)
    {
      if n.parent == null || (n.dir && |n.children| > 0) {
        assert |n.children| > 0 ==> n.children != map[];
        return false;
      }
      assert n.dir ==> n.children == map[];
      n.parent.children := n.parent.children - {n.name};
      return true;
    }
  }

  /** One name from a node: itself for ".." at the root. */
  function WalkNode(n: MemNode, name: Name): Option<MemNode>
    reads n
  {
    if !n.dir then None
    else if name == DOTDOT then (if n.parent == null then Some(n) else Some(n.parent))
    else if name in n.children then Some(n.children[name])
    else None
  }

  /** k parent links up; null past the root. */
  ghost function Up(n: MemNode?, k: nat): MemNode?
    decreases k
  {
    if k == 0 || n == null then n else Up(n.parent, k - 1)
  }
}
