/** Directory reads: whole Stat entries, paged by byte offset (server/dir.go), read back by the
    client (client/file.go) and by a namespace over its own layers (ns/file.go). */
module DirPaging {
  import opened Bytes
  import opened Layout
  import opened Messages
  import opened RoundTrip
  import opened Encoding
  import opened Decoding

  function StatBlob(e: Stat, unix: bool): (b: bytes)
    ensures |b| >= 2
  {
    Encode(Group(StatFields(e, unix)))
  }

  function StatBlobs(entries: seq<Stat>, unix: bool): bytes
  {
    if entries == [] then [] else StatBlob(entries[0], unix) + StatBlobs(entries[1..], unix)
  }

  method EntryBlob(e: Stat, unix: bool) returns (b: bytes)
    ensures b == StatBlob(e, unix)
  {
    b := MarshalStat(e, unix);
  }

  /** Each entry's body fits its 16-bit size prefix, once a plain connection has dropped the fields
      that only 9P2000.u carries. */
  predicate AllFit(entries: seq<Stat>, unix: bool)
  {
    forall i :: 0 <= i < |entries| ==> StatFits(PlainPart(entries[i], unix), unix)
  }

  /** What of the entries reaches the other side. */
  function PlainParts(entries: seq<Stat>, unix: bool): (r: seq<Stat>)
    ensures |r| == |entries|
  {
    seq(|entries|, i requires 0 <= i < |entries| => PlainPart(entries[i], unix))
  }

  lemma {:induction false} StatBlobsConcat(a: seq<Stat>, b: seq<Stat>, unix: bool)
    ensures StatBlobs(a + b, unix) == StatBlobs(a, unix) + StatBlobs(b, unix)
  {
    hide StatBlob;
    if a == [] {
      assert a + b == b;
    } else {
      StatBlobsConcat(a[1..], b, unix);
      var first, mid, last := StatBlob(a[0], unix), StatBlobs(a[1..], unix), StatBlobs(b, unix);
      assert first + (mid + last) == (first + mid) + last;
      assert (a + b)[0] == a[0] && (a + b)[1..] == a[1..] + b;
    }
  }

  // ----- the server side -----

  datatype Refusal = NegativeOffset | NotABoundary | OutOfRange | BufferTooSmall

  datatype Page = Entries(data: bytes) | EndOfDirectory | Refused(why: Refusal)

  /** How many leading entries fit in `room` bytes together. */
  function Fit(entries: seq<Stat>, room: nat, unix: bool): (k: nat)
    ensures k <= |entries|
  {
    if entries == [] || |StatBlob(entries[0], unix)| > room then 0
    else 1 + Fit(entries[1..], room - |StatBlob(entries[0], unix)|, unix)
  }

  /** A directory read as the manual describes it: drop whole entries until the offset is used
      up, then return as many whole entries as the reader has room for. */
  function ReadPage(entries: seq<Stat>, offset: int, room: nat, unix: bool): Page
  {
    if offset < 0 then Refused(NegativeOffset)
    else if offset == 0 then
      if entries == [] then EndOfDirectory
      else
        var k := Fit(entries, room, unix);
        if k == 0 then Refused(BufferTooSmall) else Entries(StatBlobs(entries[..k], unix))
    else if entries == [] then Refused(OutOfRange)
    else if |StatBlob(entries[0], unix)| > offset then Refused(NotABoundary)
    else ReadPage(entries[1..], offset - |StatBlob(entries[0], unix)|, room, unix)
  }

  /** The loop of the source: find the entry at the offset, then copy whole entries while they
      fit. What it reports, and what it leaves in the buffer, is the page. */
  method MarshalDir(entries: seq<Stat>, offset: int, buf: array<byte>, unix: bool) returns (n: nat, page: Page)
    modifies buf
    ensures page == ReadPage(entries, offset, buf.Length, unix)
    ensures n <= buf.Length && n == if page.Entries? then |page.data| else 0
    ensures page.Entries? ==> buf[..n] == page.data
    ensures forall k :: n <= k < buf.Length ==> buf[k] == old(buf[k])
  {
    n := 0;
    if offset < 0 {
      return 0, Refused(NegativeOffset);
    }
    var pos, i := 0, 0;
    while i < |entries| && pos != offset
      invariant 0 <= i <= |entries| && 0 <= pos <= offset
      invariant ReadPage(entries, offset, buf.Length, unix)
             == ReadPage(entries[i..], offset - pos, buf.Length, unix)
      invariant buf[..] == old(buf[..])
    {
      var blob := EntryBlob(entries[i], unix);
      assert blob == StatBlob(entries[i..][0], unix) && entries[i..][1..] == entries[i + 1..];
      if pos + |blob| > offset {
        return 0, Refused(NotABoundary);
      }
      pos := pos + |blob|;
      i := i + 1;
    }
    if i == |entries| {
      assert entries[i..] == [];
      return 0, if pos == offset then EndOfDirectory else Refused(OutOfRange);
    }
    n := CopyWhole(entries[i..], buf, unix);
    if n == 0 {
      page := Refused(BufferTooSmall);
    } else {
      page := Entries(buf[..n]);
    }
  }

  /** Copies leading entries to the front of the buffer while they fit. */
  method CopyWhole(entries: seq<Stat>, buf: array<byte>, unix: bool) returns (n: nat)
    modifies buf
    ensures n <= buf.Length && buf[..n] == StatBlobs(entries[..Fit(entries, buf.Length, unix)], unix)
    ensures forall k :: n <= k < buf.Length ==> buf[k] == old(buf[k])
    ensures n == 0 <==> Fit(entries, buf.Length, unix) == 0
  {
    hide StatBlob;
    n := 0;
    var j := 0;
    ghost var all := Fit(entries, buf.Length, unix);
    while j < |entries|
      invariant 0 <= j <= |entries| && n <= buf.Length
      invariant all == j + Fit(entries[j..], buf.Length - n, unix)
      invariant buf[..n] == StatBlobs(entries[..j], unix)
      invariant forall k :: n <= k < buf.Length ==> buf[k] == old(buf[k])
      invariant n == 0 <==> j == 0
    {
      var blob := EntryBlob(entries[j], unix);
      assert blob == StatBlob(entries[j..][0], unix) && entries[j..][1..] == entries[j + 1..];
      if n + |blob| > buf.Length {
        break;
      }
      CopyAt(buf, n, blob);
      OneMore(entries, j, unix);
      assert buf[..n + |blob|] == StatBlobs(entries[..j + 1], unix);
      n := n + |blob|;
      j := j + 1;
    }
    assert all == j;
  }

  method CopyAt(buf: array<byte>, n: nat, blob: bytes)
    requires n + |blob| <= buf.Length
    modifies buf
    ensures buf[..n + |blob|] == old(buf[..n]) + blob
    ensures forall k :: n + |blob| <= k < buf.Length ==> buf[k] == old(buf[k])
  {
    forall k | 0 <= k < |blob| {
      buf[n + k] := blob[k];
    }
  }

  lemma OneMore(entries: seq<Stat>, j: nat, unix: bool)
    requires j < |entries|
    ensures StatBlobs(entries[..j + 1], unix) == StatBlobs(entries[..j], unix) + StatBlob(entries[j], unix)
  {
    hide StatBlob;
    StatBlobsConcat(entries[..j], [entries[j]], unix);
    assert StatBlobs([entries[j]], unix) == StatBlob(entries[j], unix) + [];
    assert entries[..j] + [entries[j]] == entries[..j + 1];
  }

  /** Only entry boundaries are legal offsets, and at one the page holds whole entries from there. */
  lemma {:induction false} PageAtBoundary(entries: seq<Stat>, i: nat, room: nat, unix: bool)
    requires i <= |entries|
    ensures ReadPage(entries, |StatBlobs(entries[..i], unix)|, room, unix) == ReadPage(entries[i..], 0, room, unix)
  {
    hide StatBlob;
    if i > 0 {
      var first := StatBlob(entries[0], unix);
      assert entries[..i][0] == entries[0] && entries[..i][1..] == entries[1..][..i - 1];
      PageAtBoundary(entries[1..], i - 1, room, unix);
      assert entries[1..][i - 1..] == entries[i..];
    } else {
      assert entries[0..] == entries;
    }
  }

  /** An offset that is not a boundary is refused, whatever the room. */
  lemma {:induction false} OffBoundaryRefused(entries: seq<Stat>, offset: nat, room: nat, unix: bool)
    requires forall i :: 0 <= i <= |entries| ==> |StatBlobs(entries[..i], unix)| != offset
    ensures ReadPage(entries, offset, room, unix) in {Refused(NotABoundary), Refused(OutOfRange)}
  {
    hide StatBlob;
    assert |StatBlobs(entries[..0], unix)| == 0;
    if entries != [] && |StatBlob(entries[0], unix)| <= offset {
      forall i | 0 <= i <= |entries| - 1
        ensures |StatBlobs(entries[1..][..i], unix)| != offset - |StatBlob(entries[0], unix)|
      {
        assert entries[..i + 1][0] == entries[0] && entries[..i + 1][1..] == entries[1..][..i];
        assert |StatBlobs(entries[..i + 1], unix)| != offset;
      }
      OffBoundaryRefused(entries[1..], offset - |StatBlob(entries[0], unix)|, room, unix);
    }
  }

  // ----- the client side -----

  /** Tread over a directory: end of file is an empty reply, a refusal is an error reply. */
  method ServeRead(entries: seq<Stat>, offset: nat, count: nat, unix: bool) returns (page: Page, data: bytes)
    ensures page == ReadPage(entries, offset, count, unix)
    ensures data == if page.Entries? then page.data else []
  {
    var buf := new byte[count](_ => 0);
    var n;
    n, page := MarshalDir(entries, offset, buf, unix);
    data := buf[..n];
  }

  /** Cuts a run of entries at their size prefixes and decodes each. */
  function ParseEntries(chunk: bytes, unix: bool): Result<seq<Stat>>
    decreases |chunk|
  {
    if chunk == [] then Ok([])
    else if |chunk| < 2 then Err(Truncated)
    else
      var total := 2 + FromLittleEndian(chunk[..2]);
      if total > |chunk| then Err(Truncated) else
      var s :- DecodeStat(chunk[..total], unix);
      var rest :- ParseEntries(chunk[total..], unix);
      Ok([s] + rest)
  }

  method DecodeEntries(data: bytes, unix: bool) returns (r: Result<seq<Stat>>)
    ensures r == ParseEntries(data, unix)
  {
    hide DecodeStat, FromLittleEndian;
    var chunk, stats := data, [];
    while |chunk| > 0
      invariant ParseEntries(chunk, unix).Err? ==> ParseEntries(data, unix) == ParseEntries(chunk, unix)
      invariant ParseEntries(chunk, unix).Ok? ==>
                  && ParseEntries(data, unix).Ok?
                  && ParseEntries(data, unix).value == stats + ParseEntries(chunk, unix).value
    {
      if |chunk| < 2 {
        return Err(Truncated);
      }
      var total := 2 + FromLittleEndian(chunk[..2]);
      if total > |chunk| {
        return Err(Truncated);
      }
      var s := UnmarshalStatVersion(chunk[..total], unix);
      if s.Err? {
        return Err(s.error);
      }
      ghost var rest := ParseEntries(chunk[total..], unix);
      assert rest.Ok? ==> stats + ([s.value] + rest.value) == (stats + [s.value]) + rest.value;
      stats := stats + [s.value];
      chunk := chunk[total..];
    }
    assert stats + [] == stats;
    return Ok(stats);
  }

  lemma DecodeBlob(e: Stat, unix: bool)
    requires StatFits(PlainPart(e, unix), unix)
    ensures DecodeStat(StatBlob(e, unix), unix) == Ok(PlainPart(e, unix))
    ensures FromLittleEndian(StatBlob(e, unix)[..2]) + 2 == |StatBlob(e, unix)|
  {
    var f := Group(StatFields(e, unix));
    StatFitsFields(e, unix);
    StatRoundTrip(e, unix);
    ParseEncode(KGroup(StatKinds(unix)), f, []);
    assert Encode(f) + [] == Encode(f);
    SpanOfWidths();
    var body := EncodeAll(StatFields(e, unix));
    DecodeEncodeInt(|body|, 2);
    assert Encode(f)[..2] == LittleEndian(|body|, 2);
  }

  /** Entries come back from their encoding in order, but for what a plain connection drops. */
  lemma {:induction false} EntriesRoundTrip(entries: seq<Stat>, unix: bool)
    requires AllFit(entries, unix)
    ensures ParseEntries(StatBlobs(entries, unix), unix) == Ok(PlainParts(entries, unix))
  {
    hide StatBlob, DecodeStat, FromLittleEndian, StatFits, PlainPart;
    if entries != [] {
      var b, rest := StatBlob(entries[0], unix), StatBlobs(entries[1..], unix);
      DecodeBlob(entries[0], unix);
      assert (b + rest)[..2] == b[..2] && (b + rest)[..|b|] == b && (b + rest)[|b|..] == rest;
      EntriesRoundTrip(entries[1..], unix);
      assert [PlainPart(entries[0], unix)] + PlainParts(entries[1..], unix) == PlainParts(entries, unix);
    }
  }

  lemma {:induction false} FitBounds(entries: seq<Stat>, room: nat, unix: bool)
    ensures |StatBlobs(entries[..Fit(entries, room, unix)], unix)| <= room
    ensures Fit(entries, room, unix) == 0 <==> entries == [] || |StatBlob(entries[0], unix)| > room
    ensures forall j :: 0 <= j < Fit(entries, room, unix) ==> |StatBlob(entries[j], unix)| <= room
  {
    hide StatBlob;
    var k := Fit(entries, room, unix);
    if k > 0 {
      FitBounds(entries[1..], room - |StatBlob(entries[0], unix)|, unix);
      assert entries[..k][0] == entries[0] && entries[..k][1..] == entries[1..][..k - 1];
      forall j | 0 <= j < k
        ensures |StatBlob(entries[j], unix)| <= room
      {
        if j > 0 {
          assert entries[j] == entries[1..][j - 1];
        }
      }
    }
  }

  /** What one read at entry i returns: nothing at the end, a refusal if entry i is too large,
      and otherwise the encoding of the next k entries, each of which fits. */
  lemma PageContents(entries: seq<Stat>, i: nat, count: nat, unix: bool) returns (k: nat)
    requires i <= |entries| && AllFit(entries, unix)
    ensures i + k <= |entries|
    ensures var page := ReadPage(entries, |StatBlobs(entries[..i], unix)|, count, unix);
            && (page.EndOfDirectory? <==> i == |entries|)
            && (page.Refused? ==> page.why == BufferTooSmall)
            && (page.Refused? <==> i < |entries| && |StatBlob(entries[i], unix)| > count)
            && (page.Entries? ==>
                  && k > 0 && page.data == StatBlobs(entries[i..i + k], unix) && page.data != []
                  && ParseEntries(page.data, unix) == Ok(PlainParts(entries[i..i + k], unix))
                  && forall j :: i <= j < i + k ==> |StatBlob(entries[j], unix)| <= count)
  {
    hide StatBlob;
    PageAtBoundary(entries, i, count, unix);
    FitBounds(entries[i..], count, unix);
    k := Fit(entries[i..], count, unix);
    assert entries[i..][..k] == entries[i..i + k];
    EntriesRoundTrip(entries[i..i + k], unix);
    forall j | i <= j < i + k
      ensures |StatBlob(entries[j], unix)| <= count
    {
      assert entries[j] == entries[i..][j - i];
    }
  }

  /** The read at off gives entries, and the next is right after them. */
  ghost predicate ReadsOn(entries: seq<Stat>, off: nat, count: nat, unix: bool, next: nat)
  {
    var page := ReadPage(entries, off, count, unix);
    page.Entries? && next == off + |page.data|
  }

  /** The client's loop over a directory: read at growing offsets until a reply is empty. `counts`
      is how many bytes each read asks for. It returns the entries in order, as far as the dialect
      carries them; it stops early only when the next entry is larger than what the last read asked
      for, and then says so. `offs` is where it read. */
  method ReadDir(entries: seq<Stat>, counts: nat -> nat, unix: bool)
    returns (stats: seq<Stat>, failed: Option<Refusal>, rounds: nat, ghost offs: seq<nat>)
    requires AllFit(entries, unix)
    ensures failed == None ==> stats == PlainParts(entries, unix)
    ensures failed.Some? ==>
              && failed.value == BufferTooSmall && rounds > 0
              && |stats| < |entries| && stats == PlainParts(entries[..|stats|], unix)
              && |StatBlob(entries[|stats|], unix)| > counts(rounds - 1)
    ensures |stats| <= |entries|
    ensures forall i :: 0 <= i < |stats| ==> exists r :: 0 <= r < rounds && |StatBlob(entries[i], unix)| <= counts(r)
    ensures 0 < rounds <= |entries| + 1 && |offs| == rounds && offs[0] == 0
    ensures forall r :: 0 <= r < rounds - 1 ==> ReadsOn(entries, offs[r], counts(r), unix, offs[r + 1])
    ensures !ReadPage(entries, offs[rounds - 1], counts(rounds - 1), unix).Entries?
    ensures forall r :: 0 <= r < rounds ==> AtBoundary(entries, offs[r], unix)
    ensures forall r :: 0 < r < rounds ==> offs[r - 1] < offs[r]
  {
    hide StatBlob, StatBlobs, ReadPage, ParseEntries, StatFits, PlainParts, AtBoundary,
         ReadsOn;
    stats, rounds, offs := [], 0, [];
    var off := 0;
    NoneTaken(entries, unix);
    while true
      invariant |stats| <= |entries| && stats == PlainParts(entries[..|stats|], unix)
      invariant off == |StatBlobs(entries[..|stats|], unix)|
      invariant rounds <= |stats| && |offs| == rounds && (rounds > 0 ==> offs[rounds - 1] < off)
      invariant (if rounds == 0 then off else offs[0]) == 0
      invariant forall r :: 0 <= r < rounds - 1 ==> ReadsOn(entries, offs[r], counts(r), unix, offs[r + 1])
      invariant rounds > 0 ==> ReadsOn(entries, offs[rounds - 1], counts(rounds - 1), unix, off)
      invariant forall r :: 0 <= r < rounds ==> AtBoundary(entries, offs[r], unix)
      invariant forall r :: 0 < r < rounds ==> offs[r - 1] < offs[r]
      invariant forall i :: 0 <= i < |stats| ==> exists r :: 0 <= r < rounds && |StatBlob(entries[i], unix)| <= counts(r)
      decreases |entries| - |stats|
    {
      ghost var n := |stats|;
      ghost var k := PageContents(entries, n, counts(rounds), unix);
      BoundaryAt(entries, n, unix);
      var page, data := ServeRead(entries, off, counts(rounds), unix);
      ghost var before := offs;
      rounds, offs := rounds + 1, offs + [off];
      assert forall r :: 0 <= r < rounds - 1 ==> offs[r] == before[r];
      if page.Refused? {
        return stats, Some(page.why), rounds, offs;
      }
      if |data| == 0 {
        assert entries[..n] == entries;
        return stats, None, rounds, offs;
      }
      var chunk := DecodeEntries(data, unix);
      Taken(entries, n, k, unix);
      ReadOne(entries, off, counts(rounds - 1), unix);
      stats := stats + chunk.value;
      off := off + |data|;
    }
  }

  lemma ReadOne(entries: seq<Stat>, off: nat, count: nat, unix: bool)
    requires ReadPage(entries, off, count, unix).Entries?
    ensures ReadsOn(entries, off, count, unix, off + |ReadPage(entries, off, count, unix).data|)
  {
    hide ReadPage;
  }

  lemma NoneTaken(entries: seq<Stat>, unix: bool)
    ensures PlainParts(entries[..0], unix) == [] && StatBlobs(entries[..0], unix) == []
  {
  }

  /** After n entries, k more. */
  lemma Taken(entries: seq<Stat>, n: nat, k: nat, unix: bool)
    requires n + k <= |entries|
    ensures StatBlobs(entries[..n + k], unix) == StatBlobs(entries[..n], unix) + StatBlobs(entries[n..n + k], unix)
    ensures PlainParts(entries[..n + k], unix) == PlainParts(entries[..n], unix) + PlainParts(entries[n..n + k], unix)
  {
    StatBlobsConcat(entries[..n], entries[n..n + k], unix);
    assert entries[..n] + entries[n..n + k] == entries[..n + k];
  }

  lemma BoundaryAt(entries: seq<Stat>, n: nat, unix: bool)
    requires n <= |entries|
    ensures AtBoundary(entries, |StatBlobs(entries[..n], unix)|, unix)
  {
  }

  /** An entry starts at the offset, or the listing ends there. */
  ghost predicate AtBoundary(entries: seq<Stat>, off: nat, unix: bool)
  {
    exists i: nat :: i <= |entries| && off == |StatBlobs(entries[..i], unix)|
  }

  /** With a constant read size, as the client uses, the whole directory comes back exactly when
      every entry fits in one read. */
  method ReadDirConstant(entries: seq<Stat>, count: nat, unix: bool)
    returns (stats: seq<Stat>, failed: Option<Refusal>)
    requires AllFit(entries, unix)
    ensures failed == None <==> forall i :: 0 <= i < |entries| ==> |StatBlob(entries[i], unix)| <= count
    ensures failed == None ==> stats == PlainParts(entries, unix)
  {
    hide StatBlob, StatFits;
    var rounds;
    ghost var offs;
    stats, failed, rounds, offs := ReadDir(entries, _ => count, unix);
  }

  const DIR_BUFFER: nat := 8192

  /** The namespace's reader of its layers' directories: collect every page through a fixed buffer,
      then decode. Unlike the client it returns nothing at all when an entry does not fit. */
  method ReadDirEntries(entries: seq<Stat>, unix: bool) returns (stats: Option<seq<Stat>>)
    requires AllFit(entries, unix)
    ensures stats == if forall i :: 0 <= i < |entries| ==> |StatBlob(entries[i], unix)| <= DIR_BUFFER
                     then Some(PlainParts(entries, unix)) else None
  {
    hide StatBlob, ReadPage, ParseEntries, StatFits;
    var data, offset := [], 0;
    ghost var i := 0;
    while true
      invariant i <= |entries| && data == StatBlobs(entries[..i], unix) && offset == |data|
      invariant forall j :: 0 <= j < i ==> |StatBlob(entries[j], unix)| <= DIR_BUFFER
      decreases |entries| - i
    {
      ghost var k := PageContents(entries, i, DIR_BUFFER, unix);
      var page, chunk := ServeRead(entries, offset, DIR_BUFFER, unix);
      if page.EndOfDirectory? {
        break;
      }
      if page.Refused? {
        return None;
      }
      StatBlobsConcat(entries[..i], entries[i..i + k], unix);
      assert entries[..i] + entries[i..i + k] == entries[..i + k];
      data := data + chunk;
      offset := offset + |chunk|;
      i := i + k;
    }
    assert entries[..i] == entries;
    EntriesRoundTrip(entries, unix);
    var r := DecodeEntries(data, unix);
    return Some(r.value);
  }
}
