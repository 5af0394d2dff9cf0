/** The server's fid table and the client's batched walk over it (server/conn.go, server/dispatch.go,
    client/fid.go). */
module Fids {
  import opened Bytes
  import opened Messages
  import opened Names

  type Fid = uint32
  type FileId = nat

  /** The backend while one walk runs: None is an error. A file that keeps no state per fid is its
      own clone. */
  datatype Backend = Backend(walk: (FileId, Name) -> Option<FileId>, qid: FileId -> Qid, clone: FileId -> Option<FileId>)

  const MAX_ELEMENTS: nat := 16

  /** The files reached, one for each element that resolves, up to the first that does not. */
  function Reached(b: Backend, from: FileId, names: seq<Name>): (r: seq<FileId>)
    ensures |r| <= |names|
    decreases |names|
  {
    if names == [] then []
    else match b.walk(from, names[0])
      case None => []
      case Some(next) => [next] + Reached(b, next, names[1..])
  }

  function Qids(b: Backend, files: seq<FileId>): (r: seq<Qid>)
    ensures |r| == |files|
  {
    seq(|files|, i requires 0 <= i < |files| => b.qid(files[i]))
  }

  function LastOf(from: FileId, files: seq<FileId>): FileId
  {
    if files == [] then from else files[|files| - 1]
  }

  /** Where a whole walk ends, element by element with no batches; None if some element fails. */
  function WalkOneByOne(b: Backend, from: FileId, names: seq<Name>): Option<FileId>
    decreases |names|
  {
    if names == [] then Some(from)
    else match b.walk(from, names[0])
      case None => None
      case Some(next) => WalkOneByOne(b, next, names[1..])
  }

  /** An element-by-element walk succeeds when every element was reached, at the last. */
  lemma {:induction false} ReachedAll(b: Backend, from: FileId, names: seq<Name>)
    ensures WalkOneByOne(b, from, names)
         == if |Reached(b, from, names)| == |names| then Some(LastOf(from, Reached(b, from, names))) else None
    decreases |names|
  {
    if names != [] && b.walk(from, names[0]).Some? {
      var next := b.walk(from, names[0]).value;
      ReachedAll(b, next, names[1..]);
    }
  }

  /** Walking one batch after another reaches what walking them together does. */
  lemma {:induction false} ReachedInBatches(b: Backend, from: FileId, first: seq<Name>, more: seq<Name>)
    ensures var r := Reached(b, from, first);
            Reached(b, from, first + more) == if |r| < |first| then r else r + Reached(b, LastOf(from, r), more)
    decreases |first|
  {
    if first == [] {
      assert first + more == more;
    } else {
      assert (first + more)[0] == first[0] && (first + more)[1..] == first[1..] + more;
      if b.walk(from, first[0]).Some? {
        ReachedInBatches(b, b.walk(from, first[0]).value, first[1..], more);
      }
    }
  }

  /** Server-side state of one fid. */
  class OpenFile {
    var file: FileId

    constructor (file: FileId)
      ensures this.file == file
    {
      this.file := file;
    }
  }

  /** Why a request gets an Rerror. */
  datatype Failure = UnknownFid | Refused

  datatype Reply = Done | Walked(qids: seq<Qid>) | Failed(why: Failure)

  class Conn {
    var fids: map<Fid, OpenFile>

    /** No two fids share their state, so repositioning one leaves the others where they are. */
    ghost predicate Valid()
      reads this
    {
      forall f, g | f in fids && g in fids && fids[f] == fids[g] :: f == g
    }

    ghost function Table(): map<Fid, FileId>
      reads this, fids.Values
    {
      map f | f in fids :: fids[f].file
    }

    constructor ()
      ensures Valid() && Table() == map[]
    {
      fids := map[];
    }

    /** What a version request does to the table. */
    method Reset()
      modifies this
      ensures Valid() && Table() == map[]
    {
      fids := map[];
    }

    method PutFid(fid: Fid, file: FileId)
      requires Valid()
      modifies this
      ensures Valid() && Table() == old(Table())[fid := file]
      ensures forall f | f in fids :: (f in old(fids) && fids[f] == old(fids[f])) || fresh(fids[f])
    {
      var of := new OpenFile(file);
      fids := fids[fid := of];
    }

    method Attach(fid: Fid, attached: Option<FileId>) returns (r: Reply)
      requires Valid()
      modifies this
      ensures Valid() && r == (if attached.Some? then Done else Failed(Refused))
      ensures Table() == if attached.Some? then old(Table())[fid := attached.value] else old(Table())
    {
      if attached == None {
        return Failed(Refused);
      }
      PutFid(fid, attached.value);
      return Done;
    }

    /** As many elements as resolve: none, and it is an error and no fid moves; some but not all, and
        newfid still moves, to the last file reached. */
    method Walk(b: Backend, fid: Fid, newfid: Fid, names: seq<Name>) returns (r: Reply)
      requires Valid() && |names| <= MAX_ELEMENTS
      modifies this
      ensures Valid()
      ensures fid !in old(Table()) ==> r == Failed(UnknownFid) && Table() == old(Table())
      ensures fid in old(Table()) && names == [] ==>
                var c := b.clone(old(Table())[fid]);
                && r == (if c.Some? then Walked([]) else Failed(Refused))
                && Table() == if c.Some? then old(Table())[newfid := c.value] else old(Table())
      ensures fid in old(Table()) && names != [] ==>
                var files := Reached(b, old(Table())[fid], names);
                && r == (if files != [] then Walked(Qids(b, files)) else Failed(Refused))
                && Table() == if files != [] then old(Table())[newfid := files[|files| - 1]] else old(Table())
    {
      if fid !in fids {
        return Failed(UnknownFid);
      }
      var of := fids[fid];
      if |names| == 0 {
        var f := b.clone(of.file);
        if f == None {
          return Failed(Refused);
        }
        PutFid(newfid, f.value);
        return Walked([]);
      }
      var cur := of.file;
      var qids := [];
      ghost var done := [];
      var i := 0;
      assert names[0..] == names;
      while i < |names|
        invariant 0 <= i <= |names| && |done| == i && qids == Qids(b, done) && cur == LastOf(of.file, done)
        invariant Reached(b, of.file, names) == done + Reached(b, cur, names[i..])
      {
        var next := b.walk(cur, names[i]);
        if next == None {
          if i == 0 {
            return Failed(Refused);
          }
          break;
        }
        assert names[i..][1..] == names[i + 1..];
        assert done + ([next.value] + Reached(b, next.value, names[i + 1..]))
            == (done + [next.value]) + Reached(b, next.value, names[i + 1..]);
        cur := next.value;
        qids := qids + [b.qid(cur)];
        done := done + [cur];
        i := i + 1;
      }
      assert done + [] == done;
      PutFid(newfid, cur);
      return Walked(qids);
    }

    /** Repositions the fid onto the file created, in place, and no other fid. */
    method Create(fid: Fid, created: Option<FileId>) returns (r: Reply)
      requires Valid()
      modifies fids.Values
      ensures Valid() && fids == old(fids)
      ensures r == if fid !in fids then Failed(UnknownFid) else if created == None then Failed(Refused) else Done
      ensures Table() == if r == Done then old(Table())[fid := created.value] else old(Table())
    {
      if fid !in fids {
        return Failed(UnknownFid);
      }
      if created == None {
        return Failed(Refused);
      }
      fids[fid].file := created.value;
      return Done;
    }

    /** Releases the fid, whether or not closing its file fails; one that is unknown is no error. */
    method Clunk(fid: Fid, closeFails: bool) returns (r: Reply)
      requires Valid()
      modifies this
      ensures Valid() && Table() == old(Table()) - {fid}
      ensures r == if fid in old(fids) && closeFails then Failed(Refused) else Done
    {
      if fid !in fids {
        return Done;
      }
      fids := fids - {fid};
      return if closeFails then Failed(Refused) else Done;
    }

    /** Releases the fid even if the removal fails; here one that is unknown is an error. */
    method Remove(fid: Fid, removed: bool, closeFails: bool) returns (r: Reply)
      requires Valid()
      modifies this
      ensures Valid() && Table() == old(Table()) - {fid}
      ensures r == if fid !in old(fids) then Failed(UnknownFid) else if !removed || closeFails then Failed(Refused) else Done
    {
      if fid !in fids {
        return Failed(UnknownFid);
      }
      fids := fids - {fid};
      return if removed && !closeFails then Done else Failed(Refused);
    }
  }

  // ----- the client -----

  datatype WalkResult = At(fid: Fid) | NotFound(name: Name) | ServerError(why: Failure)

  /** What a batched walk reports: with k elements resolving before the first that fails, the client
      knows that element's name unless it led its batch, when the server's own error comes back. */
  function Reported(newfid: Fid, names: seq<Name>, k: nat): WalkResult
    requires k <= |names|
  {
    if k == |names| then At(newfid)
    else if k % MAX_ELEMENTS == 0 then ServerError(Refused)
    else NotFound(names[k])
  }

  /** Walk in batches of sixteen. It succeeds exactly when the walk element by element does, and then
      the only change on the server is newfid at the file that walk ends at. When it fails no fid is
      left behind: the table is the old one, but for what newfid may have named before. */
  method WalkFid(conn: Conn, b: Backend, fid: Fid, newfid: Fid, names: seq<Name>, closeFails: bool)
    returns (r: WalkResult)
    requires conn.Valid()
    modifies conn
    ensures conn.Valid()
    ensures fid !in old(conn.Table()) ==> r == ServerError(UnknownFid) && conn.Table() == old(conn.Table())
    ensures fid in old(conn.Table()) && names == [] ==>
              var c := b.clone(old(conn.Table())[fid]);
              && r == (if c.Some? then At(newfid) else ServerError(Refused))
              && conn.Table() == if c.Some? then old(conn.Table())[newfid := c.value] else old(conn.Table())
    ensures fid in old(conn.Table()) && names != [] ==>
              var from := old(conn.Table())[fid];
              var end := WalkOneByOne(b, from, names);
              && r == Reported(newfid, names, |Reached(b, from, names)|)
              && (r.At? <==> end.Some?)
              && (end.Some? ==> conn.Table() == old(conn.Table())[newfid := end.value])
              && (end == None ==>
                    conn.Table() == if Reached(b, from, names) == [] then old(conn.Table())
                                    else old(conn.Table()) - {newfid})
    ensures newfid !in old(conn.Table()) && !r.At? ==> conn.Table() == old(conn.Table())
  {
    hide Reached, WalkOneByOne;
    if |names| == 0 {
      var reply := conn.Walk(b, fid, newfid, []);
      return if reply.Failed? then ServerError(reply.why) else At(newfid);
    }
    ghost var t := conn.Table();
    if fid in t {
      ReachedAll(b, t[fid], names);
    }
    r := WalkBatches(conn, b, fid, newfid, names, closeFails);
  }

  /** The batch from i on, after `files` were reached: what it reaches, and what that says of the walk. */
  lemma Batch(b: Backend, from: FileId, names: seq<Name>, files: seq<FileId>, i: nat, end: nat)
    requires i <= end <= |names| && |files| == i
    requires Reached(b, from, names) == files + Reached(b, LastOf(from, files), names[i..])
    ensures var got := Reached(b, LastOf(from, files), names[i..end]);
            && (|got| < end - i ==> Reached(b, from, names) == files + got)
            && (|got| == end - i ==>
                  Reached(b, from, names) == (files + got) + Reached(b, LastOf(from, files + got), names[end..]))
  {
    hide Reached;
    var at := LastOf(from, files);
    var got := Reached(b, at, names[i..end]);
    assert names[i..] == names[i..end] + names[end..];
    ReachedInBatches(b, at, names[i..end], names[end..]);
    assert LastOf(from, files + got) == LastOf(at, got);
    assert files + (got + Reached(b, LastOf(at, got), names[end..]))
        == (files + got) + Reached(b, LastOf(at, got), names[end..]);
  }

  lemma ShortBatch(b: Backend, from: FileId, newfid: Fid, names: seq<Name>, files: seq<FileId>, i: nat, end: nat)
    requires i <= end <= |names| && |files| == i && i % MAX_ELEMENTS == 0 && end <= i + MAX_ELEMENTS
    requires Reached(b, from, names) == files + Reached(b, LastOf(from, files), names[i..])
    ensures var got := Reached(b, LastOf(from, files), names[i..end]);
            |got| < |names[i..end]| ==>
              && (Reached(b, from, names) == [] <==> i == 0 && got == [])
              && |Reached(b, from, names)| < |names|
              && Reported(newfid, names, |Reached(b, from, names)|)
                 == if got == [] then ServerError(Refused) else NotFound(names[i..end][|got|])
  {
    hide Reached;
    Batch(b, from, names, files, i, end);
  }

  lemma FullBatch(b: Backend, from: FileId, names: seq<Name>, files: seq<FileId>, i: nat, end: nat)
    requires i < end <= |names| && |files| == i
    requires Reached(b, from, names) == files + Reached(b, LastOf(from, files), names[i..])
    ensures var got := Reached(b, LastOf(from, files), names[i..end]);
            |got| == |names[i..end]| ==>
              && |got| == end - i > 0 && got[|got| - 1] == LastOf(from, files + got) && |files + got| == end
              && Reached(b, from, names) == (files + got) + Reached(b, LastOf(from, files + got), names[end..])
  {
    hide Reached;
    Batch(b, from, names, files, i, end);
  }

  /** One round of the loop: a request, and a clunk if it leaves newfid short of the batch's end. */
  method WalkBatch(conn: Conn, b: Backend, cur: Fid, newfid: Fid, batch: seq<Name>, first: bool, closeFails: bool)
    returns (r: Option<WalkResult>)
    requires conn.Valid() && 0 < |batch| <= MAX_ELEMENTS
    modifies conn
    ensures conn.Valid()
    ensures cur !in old(conn.Table()) ==>
              r == Some(ServerError(UnknownFid))
              && conn.Table() == if first then old(conn.Table()) else old(conn.Table()) - {newfid}
    ensures cur in old(conn.Table()) ==>
              var got := Reached(b, old(conn.Table())[cur], batch);
              && r == (if |got| == |batch| then None
                       else if got == [] then Some(ServerError(Refused)) else Some(NotFound(batch[|got|])))
              && conn.Table() == if |got| == |batch| then old(conn.Table())[newfid := got[|got| - 1]]
                                 else if got == [] && first then old(conn.Table())
                                 else old(conn.Table()) - {newfid}
  {
    hide Reached, Qids;
    var reply := conn.Walk(b, cur, newfid, batch);
    if reply.Failed? {
      if !first {
        var ignored := conn.Clunk(newfid, closeFails);
      }
      return Some(ServerError(reply.why));
    }
    if |reply.qids| < |batch| {
      var ignored := conn.Clunk(newfid, closeFails);
      return Some(NotFound(batch[|reply.qids|]));
    }
    return None;
  }

  method WalkBatches(conn: Conn, b: Backend, fid: Fid, newfid: Fid, names: seq<Name>, closeFails: bool)
    returns (r: WalkResult)
    requires conn.Valid() && names != []
    modifies conn
    ensures conn.Valid()
    ensures fid !in old(conn.Table()) ==> r == ServerError(UnknownFid) && conn.Table() == old(conn.Table())
    ensures fid in old(conn.Table()) ==>
              var files := Reached(b, old(conn.Table())[fid], names);
              && r == Reported(newfid, names, |files|)
              && conn.Table() == if files == [] then old(conn.Table())
                                 else if |files| < |names| then old(conn.Table()) - {newfid}
                                 else old(conn.Table())[newfid := files[|files| - 1]]
  {
    hide Reached, Reported, LastOf, Conn.Valid, Conn.Table;
    LastOfNone(if fid in conn.Table() then conn.Table()[fid] else 0);
    var cur := fid;
    ghost var t := conn.Table();
    ghost var from := if fid in t then t[fid] else 0;
    ghost var files := [];
    var i := 0;
    assert names[0..] == names;
    while i < |names|
      invariant 0 <= i <= |names| && (i == |names| || i % MAX_ELEMENTS == 0) && |files| == i && conn.Valid()
      invariant i > 0 ==> fid in t
      invariant cur == (if i == 0 then fid else newfid)
      invariant conn.Table() == if i == 0 then t else t[newfid := LastOf(from, files)]
      invariant fid in t ==> Reached(b, from, names) == files + Reached(b, LastOf(from, files), names[i..])
    {
      var end := if i + MAX_ELEMENTS < |names| then i + MAX_ELEMENTS else |names|;
      ghost var got := Reached(b, LastOf(from, files), names[i..end]);
      if fid in t {
        ShortBatch(b, from, newfid, names, files, i, end);
        FullBatch(b, from, names, files, i, end);
      }
      var stopped := WalkBatch(conn, b, cur, newfid, names[i..end], i == 0, closeFails);
      if stopped.Some? {
        return stopped.value;
      }
      files := files + got;
      cur := newfid;
      i := end;
    }
    NoneLeft(b, from, newfid, files, names);
    return At(newfid);
  }

  lemma LastOfNone(from: FileId)
    ensures LastOf(from, []) == from
  {
  }

  lemma NoneLeft(b: Backend, from: FileId, newfid: Fid, files: seq<FileId>, names: seq<Name>)
    ensures files + Reached(b, LastOf(from, files), names[|names|..]) == files
    ensures Reported(newfid, names, |names|) == At(newfid)
    ensures files != [] ==> LastOf(from, files) == files[|files| - 1]
  {
  }
}
