/** Chunked reads and writes over one file (client/file.go), against the in-memory backend
    (examples/memfs/memfs.go) and the frames that carry them. */
module FileIO {
  import opened Bytes
  import opened Layout
  import opened Messages
  import opened FileData
  import MemTree

  // ----- the frames -----

  /** Exactly what a Tread, its reply and a Twrite take on the wire, whatever the tag. */
  lemma FrameSizes(tag: uint16, fid: uint32, offset: uint64, count: uint32, data: bytes, unix: bool)
    ensures |Frame(tag, Tread(fid, offset, count), unix)| == 23
    ensures |Frame(tag, Rread(data), unix)| == 11 + |data|
    ensures |Frame(tag, Twrite(fid, offset, data), unix)| == 23 + |data|
  {
    OneField(Blob(data));
    ThreeFields(Num(4, fid), Num(8, offset), Num(4, count));
    ThreeFields(Num(4, fid), Num(8, offset), Blob(data));
  }

  lemma OneField(f: Field)
    ensures EncodeAll([f]) == Encode(f)
  {
    Append([], f, []);
    assert [] + [f] == [f];
  }

  lemma ThreeFields(f: Field, g: Field, h: Field)
    ensures EncodeAll([f, g, h]) == Encode(f) + Encode(g) + Encode(h)
  {
    OneField(f);
    Append([f], g, []);
    Append([f, g], h, []);
    assert [f] + [g] == [f, g] && [f, g] + [h] == [f, g, h];
  }

  // ----- the client -----

  const IO_HEADER: nat := 24
  const MAX_OFFSET: nat := 0x8000_0000_0000_0000

  datatype Whence = SeekStart | SeekCurrent | SeekEnd

  /** An open file of the client, and the file it is open on at the server. */
  class ClientFile {
    const fid: uint32
    const msize: uint32
    const iounit: uint32
    const unix: bool
    const remote: MemTree.MemNode
    var offset: nat
    /** Every message sent and received. */
    ghost var log: seq<Message>

    constructor (fid: uint32, msize: uint32, iounit: uint32, unix: bool, remote: MemTree.MemNode)
      ensures this.fid == fid && this.msize == msize && this.iounit == iounit && this.unix == unix
      ensures this.remote == remote && offset == 0 && log == []
    {
      this.fid, this.msize, this.iounit, this.unix, this.remote, offset := fid, msize, iounit, unix, remote, 0;
      log := [];
    }

    /** How much one message carries. */
    function MaxIO(): (max: nat)
      ensures 1 <= max && (IO_HEADER < msize ==> max + IO_HEADER <= msize)
      ensures 0 < iounit && IO_HEADER < msize ==> max <= iounit
    {
      var most := msize - IO_HEADER;
      var max := if 0 < iounit < most then iounit else most;
      if max <= 0 then 1 else max
    }

    ghost predicate Fits(m: Message)
    {
      forall tag: uint16 :: |Frame(tag, m, unix)| <= msize
    }

    /** Nothing has gone over the wire that the other side would refuse as too large: so it is on any
        connection whose messages have room for the header allowed for. */
    ghost predicate AllFit(messages: seq<Message>)
    {
      IO_HEADER <= msize ==> forall m | m in messages :: Fits(m)
    }

    lemma ChunkFits(at: uint64, count: uint32, data: bytes)
      requires IO_HEADER <= msize && count <= MaxIO() && |data| <= MaxIO()
      ensures Fits(Tread(fid, at, count)) && Fits(Rread(data)) && Fits(Twrite(fid, at, data))
    {
      forall tag: uint16
        ensures |Frame(tag, Tread(fid, at, count), unix)| <= msize
        ensures |Frame(tag, Rread(data), unix)| <= msize
        ensures |Frame(tag, Twrite(fid, at, data), unix)| <= msize
      {
        FrameSizes(tag, fid, at, count, data, unix);
      }
    }

    /** One Tread and its reply. */
    method RemoteRead(at: uint64, count: uint32) returns (data: bytes)
      requires AllFit(log) && count <= MaxIO()
      requires !remote.dir
      modifies this`log
      ensures data == Slice(remote.data, at, count) && AllFit(log)
      ensures log == old(log) + [Tread(fid, at, count), Rread(data)]
    {
      var buf := new byte[count](_ => 0);
      var n := remote.Read(at, buf);
      data := buf[..n.value];
      log := log + [Tread(fid, at, count), Rread(data)];
      if IO_HEADER <= msize {
        ChunkFits(at, count, data);
      }
    }

    /** One Twrite and its reply. */
    method RemoteWrite(at: uint64, data: bytes) returns (count: nat)
      requires AllFit(log) && |data| <= MaxIO()
      requires !remote.dir
      modifies remote`data, remote`version, this`log
      ensures count == |data| && remote.data == Written(old(remote.data), at, data) && AllFit(log)
      ensures remote.version == MemTree.NextVersion(old(remote.version))
      ensures log == old(log) + [Twrite(fid, at, data)]
    {
      var written := remote.Write(at, data);
      count := written.value;
      log := log + [Twrite(fid, at, data)];
      if IO_HEADER <= msize {
        ChunkFits(at, 0, data);
      }
    }

    /** The messages that write p at off: consecutive chunks, each as large as one may be. */
    function WriteMessages(p: bytes, off: nat): seq<Message>
      requires off + |p| < MAX_OFFSET
      decreases |p|
    {
      if p == [] then []
      else
        var n := Chunk(|p|);
        [Twrite(fid, off, p[..n])] + WriteMessages(p[n..], off + n)
    }

    /** The messages that read want bytes of d at off, each with its reply, up to a short one. */
    function ReadMessages(d: bytes, off: nat, want: nat): seq<Message>
      requires off + want < MAX_OFFSET
      decreases want
    {
      if want == 0 then []
      else
        var n := Chunk(want);
        var data := Slice(d, off, n);
        [Tread(fid, off, n), Rread(data)] + if |data| < n then [] else ReadMessages(d, off + n, want - n)
    }

    static function Payload(messages: seq<Message>): bytes
    {
      if messages == [] then []
      else (if messages[0].Twrite? || messages[0].Rread? then messages[0].data else [])
           + Payload(messages[1..])
    }

    /** A write's messages carry p between them, and all but the last are full. */
    lemma {:induction false} WritesCarryAll(p: bytes, off: nat)
      requires off + |p| < MAX_OFFSET
      ensures var ms := WriteMessages(p, off);
              && Payload(ms) == p && (p != [] ==> ms != [])
              && (forall i :: 0 <= i < |ms| ==> ms[i].Twrite? && ms[i].fid == fid && 1 <= |ms[i].data| <= MaxIO())
              && (forall i :: 0 <= i < |ms| - 1 ==> |ms[i].data| == MaxIO())
      decreases |p|
    {
      if p != [] {
        WriteStep(p, off);
        var n := Chunk(|p|);
        WritesCarryAll(p[n..], off + n);
        var ms, rest := WriteMessages(p, off), WriteMessages(p[n..], off + n);
        hide WriteMessages;
        assert ms[0] == Twrite(fid, off, p[..n]) && ms[1..] == rest && p[..n] + p[n..] == p;
        assert forall i :: 1 <= i < |ms| ==> ms[i] == rest[i - 1];
        assert rest != [] ==> n < |p|;
      }
    }

    /** How much of what is left one message carries. */
    function Chunk(left: nat): (n: nat)
      requires left > 0
      ensures 1 <= n <= left && n <= MaxIO() && (n < left ==> n == MaxIO())
    {
      if left > MaxIO() then MaxIO() else left
    }

    lemma WriteStep(p: bytes, off: nat)
      requires p != [] && off + |p| < MAX_OFFSET
      ensures var n := Chunk(|p|);
              WriteMessages(p, off) == [Twrite(fid, off, p[..n])] + WriteMessages(p[n..], off + n)
    {
    }

    lemma ReadStep(d: bytes, off: nat, want: nat)
      requires want > 0 && off + want < MAX_OFFSET
      ensures var n := Chunk(want);
              var data := Slice(d, off, n);
              ReadMessages(d, off, want)
              == [Tread(fid, off, n), Rread(data)] + if |data| < n then [] else ReadMessages(d, off + n, want - n)
    {
      hide Slice;
    }

    lemma NoMessages(d: bytes, off: nat)
      requires off < MAX_OFFSET
      ensures WriteMessages([], off) == [] && ReadMessages(d, off, 0) == []
    {
    }

    static lemma PayloadOf(at: uint64, n: uint32, id: uint32, data: bytes, rest: seq<Message>)
      ensures Payload([Tread(id, at, n), Rread(data)] + rest) == data + Payload(rest)
    {
      var ms := [Tread(id, at, n), Rread(data)] + rest;
      assert ms[1..] == [Rread(data)] + rest && ms[1..][1..] == rest;
    }

    /** A read's replies carry what there is of the stretch asked for, and nothing else. */
    lemma {:induction false} RepliesCarryAll(d: bytes, off: nat, want: nat)
      requires off + want < MAX_OFFSET
      ensures Payload(ReadMessages(d, off, want)) == Slice(d, off, want)
      decreases want
    {
      hide ReadMessages, Payload, Slice;
      SliceFacts(d, off, want);
      NoMessages(d, off);
      NothingCarried();
      if want > 0 {
        ReadStep(d, off, want);
        var n := Chunk(want);
        var data := Slice(d, off, n);
        SliceFacts(d, off, n);
        if |data| < n {
          NoMore(d, off, n, want);
          PayloadOf(off, n, fid, data, []);
        } else {
          PayloadOf(off, n, fid, data, ReadMessages(d, off + n, want - n));
          RepliesCarryAll(d, off + n, want - n);
          ReadInPieces(d, off, n, want - n);
        }
      }
    }

    static lemma NothingCarried()
      ensures Payload([]) == []
    {
    }

    static lemma NoMore(d: bytes, off: nat, n: nat, all: nat)
      requires |Slice(d, off, n)| < n <= all
      ensures Slice(d, off, all) == Slice(d, off, n)
    {
    }

    /** Reads the slice at off into p, message by message; end of file exactly when p is not filled. */
    method ReadAt(p: array<byte>, off: nat) returns (total: nat, eof: bool)
      requires !remote.dir && AllFit(log) && off + p.Length < MAX_OFFSET
      modifies p, this`log
      ensures AllFit(log) && log == old(log) + ReadMessages(remote.data, off, p.Length)
      ensures total == |Slice(remote.data, off, p.Length)| && p[..total] == Slice(remote.data, off, p.Length)
      ensures forall k :: total <= k < p.Length ==> p[k] == old(p[k])
      ensures eof <==> total < p.Length
    {
      hide AllFit, Slice, ReadMessages;
      ghost var d := remote.data;
      total := 0;
      SliceFacts(d, off, 0);
      while total < p.Length
        invariant 0 <= total <= p.Length && remote.data == d && AllFit(log)
        invariant log + ReadMessages(d, off + total, p.Length - total) == old(log) + ReadMessages(d, off, p.Length)
        invariant |Slice(d, off, total)| == total && p[..total] == Slice(d, off, total)
        invariant forall k :: total <= k < p.Length ==> p[k] == old(p[k])
      {
        var count := if p.Length - total > MaxIO() then MaxIO() else p.Length - total;
        ReadStep(d, off + total, p.Length - total);
        ghost var got := Slice(d, off + total, count);
        SliceFacts(d, off + total, count);
        ghost var before := log;
        var data := RemoteRead(off + total, count);
        Sent(before, [Tread(fid, off + total, count), Rread(data)],
             if |data| < count then [] else ReadMessages(d, off + total + count, p.Length - total - count));
        ReadInPieces(d, off, total, count);
        CopyIn(p, total, data);
        total := total + |data|;
        if |data| < count {
          ShortRead(d, off, total - |data|, count, p.Length);
          return total, true;
        }
      }
      NoMessages(d, off + total);
      eof := false;
    }

    static method CopyIn(p: array<byte>, at: nat, data: bytes)
      requires at + |data| <= p.Length
      modifies p
      ensures p[..at + |data|] == old(p[..at]) + data
      ensures forall k :: at + |data| <= k < p.Length ==> p[k] == old(p[k])
    {
      forall k | 0 <= k < |data| {
        p[at + k] := data[k];
      }
    }

    static lemma SliceFacts(d: bytes, off: nat, n: nat)
      ensures |Slice(d, off, n)| <= n && Slice(d, off, 0) == []
    {
    }

    /** A reply shorter than asked for means there is no more. */
    static lemma ShortRead(d: bytes, off: nat, m: nat, n: nat, all: nat)
      requires |Slice(d, off, m)| == m && |Slice(d, off + m, n)| < n && m + n <= all
      ensures Slice(d, off, all) == Slice(d, off, m + n) && |Slice(d, off, all)| < all
    {
    }

    /** Leaves the remote file as one write of p at off would. */
    method WriteAt(p: bytes, off: nat) returns (total: nat)
      requires !remote.dir && AllFit(log) && off + |p| < MAX_OFFSET
      modifies remote`data, remote`version, this`log
      ensures AllFit(log) && log == old(log) + WriteMessages(p, off)
      ensures remote.version == MemTree.Later(old(remote.version), |WriteMessages(p, off)|)
      ensures total == |p|
      ensures remote.data == if p == [] then old(remote.data) else Written(old(remote.data), off, p)
    {
      hide AllFit, Written, WriteMessages, MemTree.NextVersion;
      ghost var d := remote.data;
      total := 0;
      assert p[0..] == p;
      while total < |p|
        invariant 0 <= total <= |p| && AllFit(log)
        invariant log + WriteMessages(p[total..], off + total) == old(log) + WriteMessages(p, off)
        invariant MemTree.Later(remote.version, |WriteMessages(p[total..], off + total)|)
               == MemTree.Later(old(remote.version), |WriteMessages(p, off)|)
        invariant remote.data == if total == 0 then d else Written(d, off, p[..total])
      {
        var size := if |p| - total > MaxIO() then MaxIO() else |p| - total;
        var chunk := p[total..total + size];
        WriteStep(p[total..], off + total);
        CutOff(p, total, size);
        ghost var before := log;
        var n := RemoteWrite(off + total, chunk);
        Sent(before, [Twrite(fid, off + total, chunk)], WriteMessages(p[total + n..], off + total + n));
        WriteInPieces(d, off, p[..total], chunk);
        total := total + n;
      }
      NoMessages(d, off + total);
      assert p[..total] == p && p[total..] == [];
    }

    static lemma CutOff(p: bytes, total: nat, size: nat)
      requires total + size <= |p|
      ensures p[total..][..size] == p[total..total + size] && p[total..][size..] == p[total + size..]
      ensures p[..total] + p[total..total + size] == p[..total + size]
      ensures total == 0 ==> p[..total] + p[total..total + size] == p[total..total + size]
    {
    }

    static lemma Sent(before: seq<Message>, now: seq<Message>, rest: seq<Message>)
      ensures before + now + rest == before + (now + rest) && |now + rest| == |rest| + |now|
      ensures before + now + [] == before + now
    {
    }

    /** Reads at the offset, at most one message's worth, and moves past what was read. */
    method Read(p: array<byte>) returns (n: nat, eof: bool)
      requires !remote.dir && AllFit(log) && offset + p.Length < MAX_OFFSET
      modifies p, this`offset, this`log
      ensures AllFit(log)
      ensures log == old(log) + var want := if p.Length > MaxIO() then MaxIO() else p.Length;
                                [Tread(fid, old(offset), want), Rread(Slice(remote.data, old(offset), want))]
      ensures var want := if p.Length > MaxIO() then MaxIO() else p.Length;
              n == |Slice(remote.data, old(offset), want)| && p[..n] == Slice(remote.data, old(offset), want)
      ensures forall k :: n <= k < p.Length ==> p[k] == old(p[k])
      ensures offset == old(offset) + n
      ensures eof <==> p.Length == 0 || old(offset) >= |remote.data|
    {
      hide AllFit;
      var want := if p.Length > MaxIO() then MaxIO() else p.Length;
      var data := RemoteRead(offset, want);
      CopyIn(p, 0, data);
      n := |data|;
      offset := offset + n;
      eof := n == 0;
    }

    /** Writes at the offset and moves past it. */
    method Write(p: bytes) returns (n: nat)
      requires !remote.dir && AllFit(log) && offset + |p| < MAX_OFFSET
      modifies remote`data, remote`version, this`offset, this`log
      ensures AllFit(log) && log == old(log) + WriteMessages(p, old(offset))
      ensures remote.version == MemTree.Later(old(remote.version), |WriteMessages(p, old(offset))|)
      ensures n == |p| && offset == old(offset) + |p|
      ensures remote.data == if p == [] then old(remote.data) else Written(old(remote.data), old(offset), p)
    {
      hide AllFit, WriteMessages, Written, MemTree.Later;
      n := WriteAt(p, offset);
      offset := offset + n;
    }

    method Seek(to: int, whence: Whence) returns (r: Option<nat>)
      modifies this`offset
      ensures var base := match whence
                          case SeekStart => 0
                          case SeekCurrent => old(offset)
                          case SeekEnd => |remote.data|;
              && r == (if base + to < 0 then None else Some(base + to))
              && offset == if base + to < 0 then old(offset) else base + to
    {
      var newOff := match whence
        case SeekStart => to
        case SeekCurrent => offset + to
        case SeekEnd => |remote.data| + to;
      if newOff < 0 {
        return None;
      }
      offset := newOff;
      return Some(newOff);
    }
  }

  /** Any pieces written in turn through the offset leave what one write of them all would, and
      reading the same stretch back gives them. */
  method WritePieces(f: ClientFile, pieces: seq<bytes>) returns (n: nat)
    requires !f.remote.dir && f.AllFit(f.log) && f.offset + |Joined(pieces)| < MAX_OFFSET
    modifies f.remote`data, f.remote`version, f`offset, f`log
    ensures f.AllFit(f.log)
    ensures n == |Joined(pieces)| && f.offset == old(f.offset) + n
    ensures f.remote.data == if n == 0 then old(f.remote.data)
                             else Written(old(f.remote.data), old(f.offset), Joined(pieces))
    ensures n > 0 ==> Slice(f.remote.data, old(f.offset), n) == Joined(pieces)
  {
    hide Written, Slice, ClientFile.AllFit, ClientFile.WriteMessages, MemTree.Later;
    ghost var d, off := f.remote.data, f.offset;
    n := 0;
    var i := 0;
    while i < |pieces|
      invariant 0 <= i <= |pieces| && n == |Joined(pieces[..i])| && f.offset == off + n && f.AllFit(f.log)
      invariant f.remote.data == if n == 0 then d else Written(d, off, Joined(pieces[..i]))
    {
      JoinedMore(pieces, i);
      var k := f.Write(pieces[i]);
      WriteInPieces(d, off, Joined(pieces[..i]), pieces[i]);
      assert n == 0 ==> Joined(pieces[..i]) + pieces[i] == pieces[i];
      assert k == 0 ==> Joined(pieces[..i]) + pieces[i] == Joined(pieces[..i]);
      n := n + k;
      i := i + 1;
    }
    assert pieces[..i] == pieces;
    ReadAfterWrite(d, off, Joined(pieces));
  }

  function Joined(pieces: seq<bytes>): bytes
  {
    if pieces == [] then [] else Joined(pieces[..|pieces| - 1]) + pieces[|pieces| - 1]
  }

  lemma JoinedMore(pieces: seq<bytes>, i: nat)
    requires i < |pieces|
    ensures Joined(pieces[..i + 1]) == Joined(pieces[..i]) + pieces[i]
    ensures |Joined(pieces[..i + 1])| <= |Joined(pieces)|
    decreases |pieces|
  {
    assert pieces[..i + 1][..i] == pieces[..i];
    if i + 1 < |pieces| {
      var front := pieces[..|pieces| - 1];
      JoinedMore(front, i);
      assert front[..i + 1] == pieces[..i + 1];
    } else {
      assert pieces[..i + 1] == pieces;
    }
  }
}
