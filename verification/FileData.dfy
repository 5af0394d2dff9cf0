/** What reading and writing at an offset mean for a file's bytes (examples/memfs/memfs.go). */
module FileData {
  import opened Bytes

  function Zeros(n: nat): (z: bytes)
    ensures |z| == n
  {
    seq(n, _ => 0)
  }

  function Resized(d: bytes, n: nat): (r: bytes)
    ensures |r| == n
  {
    if n <= |d| then d[..n] else d + Zeros(n - |d|)
  }

  /** The bytes at off, at most n of them. */
  function Slice(d: bytes, off: nat, n: nat): (r: bytes)
    ensures |r| == if off >= |d| then 0 else if off + n <= |d| then n else |d| - off
  {
    if off >= |d| then [] else if off + n <= |d| then d[off..off + n] else d[off..]
  }

  /** d with p at off: past the end it is filled up with zeros first. */
  function Written(d: bytes, off: nat, p: bytes): (r: bytes)
    ensures |r| == if off + |p| > |d| then off + |p| else |d|
  {
    var g := if off + |p| > |d| then Resized(d, off + |p|) else d;
    g[..off] + p + g[off + |p|..]
  }

  /** Byte by byte: p where it was put, zeros between the old end and it, the rest as it was. */
  lemma WrittenAt(d: bytes, off: nat, p: bytes, k: nat)
    requires k < |Written(d, off, p)|
    ensures Written(d, off, p)[k] == if off <= k < off + |p| then p[k - off] else if k < |d| then d[k] else 0
  {
  }

  /** A read sees a write, and only a write that reaches it. */
  lemma ReadAfterWrite(d: bytes, off: nat, p: bytes)
    ensures Slice(Written(d, off, p), off, |p|) == p
    ensures forall at: nat, n: nat :: at + n <= off && at + n <= |d| ==> Slice(Written(d, off, p), at, n) == Slice(d, at, n)
  {
    forall at: nat, n: nat | at + n <= off && at + n <= |d|
      ensures Slice(Written(d, off, p), at, n) == Slice(d, at, n)
    {
      forall k | 0 <= k < n
        ensures Slice(Written(d, off, p), at, n)[k] == Slice(d, at, n)[k]
      {
        WrittenAt(d, off, p, at + k);
      }
    }
  }

  /** Writing one piece after another is writing them together. */
  lemma WriteInPieces(d: bytes, off: nat, a: bytes, b: bytes)
    ensures Written(Written(d, off, a), off + |a|, b) == Written(d, off, a + b)
  {
    var two, one := Written(Written(d, off, a), off + |a|, b), Written(d, off, a + b);
    forall k | 0 <= k < |one|
      ensures two[k] == one[k]
    {
      WrittenAt(d, off, a + b, k);
      WrittenAt(Written(d, off, a), off + |a|, b, k);
      if k < |Written(d, off, a)| {
        WrittenAt(d, off, a, k);
      }
    }
  }

  /** So is reading, as long as the first piece is full. */
  lemma ReadInPieces(d: bytes, off: nat, m: nat, n: nat)
    ensures Slice(d, off, m + n)
         == if |Slice(d, off, m)| < m then Slice(d, off, m) else Slice(d, off, m) + Slice(d, off + m, n)
  {
  }
}
