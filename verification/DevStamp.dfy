/** Stamping the dev field of encoded directory entries in place (ns/dev.go). */
module DevStamp {
  import opened Bytes
  import opened Layout
  import opened Messages
  import opened RoundTrip
  import opened DirPaging

  const DEV_OFFSET: nat := 4

  /** The entry at the front of b, when it is whole and long enough to have a dev field. */
  predicate WholeEntry(b: bytes)
  {
    |b| >= 2 && var total := 2 + FromLittleEndian(b[..2]); DEV_OFFSET + 4 <= total <= |b|
  }

  function EntrySize(b: bytes): nat
    requires WholeEntry(b)
  {
    2 + FromLittleEndian(b[..2])
  }

  function StampEntry(b: bytes, dev: nat): (r: bytes)
    requires |b| >= DEV_OFFSET + 4
    ensures |r| == |b|
  {
    b[..DEV_OFFSET] + LittleEndian(dev, 4) + b[DEV_OFFSET + 4..]
  }

  /** Every whole entry stamped, the rest left alone. */
  function Stamped(b: bytes, dev: nat): (r: bytes)
    ensures |r| == |b|
    decreases |b|
  {
    if !WholeEntry(b) then b
    else StampEntry(b[..EntrySize(b)], dev) + Stamped(b[EntrySize(b)..], dev)
  }

  /** The loop of the source, over the first n bytes of the reader's buffer. */
  method SetDirDev(p: array<byte>, n: nat, dev: nat)
    requires n <= p.Length
    modifies p
    ensures p[..n] == Stamped(old(p[..n]), dev)
    ensures p[n..] == old(p[n..])
  {
    hide FromLittleEndian, StampEntry, Stamped, WholeEntry, LittleEndian;
    ghost var before, after := p[..n], Stamped(p[..n], dev);
    var at := 0;
    while n - at >= 2
      invariant 0 <= at <= n
      invariant forall k :: 0 <= k < at ==> p[k] == after[k]
      invariant forall k :: at <= k < n ==> p[k] == before[k]
      invariant after[at..] == Stamped(before[at..], dev)
      invariant forall k :: n <= k < p.Length ==> p[k] == old(p[k])
    {
      assert p[at..at + 2] == before[at..][..2];
      var total := 2 + FromLittleEndian(p[at..at + 2]);
      NextEntry(before[at..]);
      if total > n - at || total < DEV_OFFSET + 4 {
        break;
      }
      StampStep(before, after, at, total, dev);
      PutDev(p, at + DEV_OFFSET, dev);
      at := at + total;
    }
    NextEntry(before[at..]);
    NothingMore(before, after, at, dev);
  }

  method PutDev(p: array<byte>, at: nat, dev: nat)
    requires at + 4 <= p.Length
    modifies p
    ensures forall k :: 0 <= k < p.Length ==>
              p[k] == if at <= k < at + 4 then LittleEndian(dev, 4)[k - at] else old(p[k])
  {
    var b := LittleEndian(dev, 4);
    p[at], p[at + 1], p[at + 2], p[at + 3] := b[0], b[1], b[2], b[3];
  }

  lemma NextEntry(rest: bytes)
    ensures WholeEntry(rest) <==> |rest| >= 2 && DEV_OFFSET + 4 <= 2 + FromLittleEndian(rest[..2]) <= |rest|
  {
  }

  lemma NothingMore(before: bytes, after: bytes, at: nat, dev: nat)
    requires |after| == |before| && at <= |before| && after[at..] == Stamped(before[at..], dev)
    requires !WholeEntry(before[at..])
    ensures forall k :: at <= k < |before| ==> after[k] == before[k]
  {
    assert forall k :: at <= k < |before| ==> after[k] == after[at..][k - at] && before[k] == before[at..][k - at];
  }

  /** One entry's worth of stamping: the dev field replaced, the other bytes as they were. */
  lemma StampStep(before: bytes, after: bytes, at: nat, total: nat, dev: nat)
    requires |after| == |before| && at <= |before| && after[at..] == Stamped(before[at..], dev)
    requires DEV_OFFSET + 4 <= total <= |before| - at && total == 2 + FromLittleEndian(before[at..][..2])
    ensures after[at + total..] == Stamped(before[at + total..], dev)
    ensures forall k :: at <= k < at + total ==>
              after[k] == if at + DEV_OFFSET <= k < at + DEV_OFFSET + 4 then LittleEndian(dev, 4)[k - at - DEV_OFFSET]
                          else before[k]
  {
    hide FromLittleEndian;
    var rest := before[at..];
    var entry := StampEntry(rest[..total], dev);
    assert WholeEntry(rest) && EntrySize(rest) == total;
    assert after[at..] == entry + Stamped(rest[total..], dev);
    assert rest[total..] == before[at + total..];
    assert after[at + total..] == after[at..][total..] == (entry + Stamped(rest[total..], dev))[total..];
    forall k | at <= k < at + total
      ensures after[k] == entry[k - at]
    {
      assert after[k] == after[at..][k - at];
    }
  }

  function WithDev(e: Stat, dev: uint32): Stat
  {
    e.(dev := dev)
  }

  function AllWithDev(entries: seq<Stat>, dev: uint32): (r: seq<Stat>)
    ensures |r| == |entries|
  {
    seq(|entries|, i requires 0 <= i < |entries| => WithDev(entries[i], dev))
  }

  lemma BlobIsWhole(e: Stat, unix: bool)
    requires StatFits(PlainPart(e, unix), unix)
    ensures WholeEntry(StatBlob(e, unix)) && EntrySize(StatBlob(e, unix)) == |StatBlob(e, unix)|
  {
    assert StatFields(PlainPart(e, unix), unix) == StatFields(e, unix);
    hide StatFields;
    DecodeBlob(e, unix);
    StatSizeBound(PlainPart(e, unix), unix);
  }

  /** Stamping the encoding of an entry is encoding the stamped entry, in both flavours. */
  lemma StampedBlob(e: Stat, dev: uint32, unix: bool)
    requires StatFits(PlainPart(e, unix), unix)
    ensures WholeEntry(StatBlob(e, unix)) && EntrySize(StatBlob(e, unix)) == |StatBlob(e, unix)|
    ensures StampEntry(StatBlob(e, unix), dev) == StatBlob(WithDev(e, dev), unix)
  {
    var tail := StatFields(e, unix)[2..];
    assert StatFields(WithDev(e, dev), unix)[2..] == tail;
    assert StatFields(PlainPart(e, unix), unix) == StatFields(e, unix);
    BlobIsWhole(e, unix);
    hide StatFields, StatFits, PlainPart, StatBlob, EncodeAll, LittleEndian, StampEntry, WholeEntry, EntrySize;
    SplitAtDev(e, unix, tail);
    SplitAtDev(WithDev(e, dev), unix, tail);
    PatchedBody(LittleEndian(|EncodeAll(StatFields(e, unix))|, 2), LittleEndian(e.stype, 2), EncodeAll(tail), e.dev, dev);
  }

  /** The type and dev fields come first, right behind the size prefix. */
  lemma SplitAtDev(e: Stat, unix: bool, tail: seq<Field>)
    requires tail == StatFields(e, unix)[2..]
    ensures var body := LittleEndian(e.stype, 2) + LittleEndian(e.dev, 4) + EncodeAll(tail);
            StatBlob(e, unix) == LittleEndian(|body|, 2) + body && EncodeAll(StatFields(e, unix)) == body
  {
    var fs := StatFields(e, unix);
    assert fs == [Num(2, e.stype), Num(4, e.dev)] + tail;
    FrontOfBody(Num(2, e.stype), e.dev, tail);
  }

  lemma PatchedBody(size: bytes, head: bytes, tail: bytes, was: nat, dev: nat)
    requires |size| == 2 && |head| == 2
    ensures StampEntry(size + (head + LittleEndian(was, 4) + tail), dev) == size + (head + LittleEndian(dev, 4) + tail)
  {
    var b := size + (head + LittleEndian(was, 4) + tail);
    assert b[..4] == size + head && b[8..] == tail;
  }

  lemma FrontOfBody(f: Field, dev: uint32, tail: seq<Field>)
    ensures EncodeAll([f, Num(4, dev)] + tail) == Encode(f) + LittleEndian(dev, 4) + EncodeAll(tail)
  {
    TwoFields(f, Num(4, dev));
    assert Encode(Num(4, dev)) == LittleEndian(dev, 4);
    EncodeConcat([f, Num(4, dev)], tail);
  }

  lemma TwoFields(f: Field, g: Field)
    ensures EncodeAll([f, g]) == Encode(f) + Encode(g)
  {
    hide Encode;
    Append([], f, []);
    Append([f], g, []);
    assert [] + [f] == [f] && [f] + [g] == [f, g];
    assert EncodeAll([]) == [] && [] + Encode(f) == Encode(f);
  }

  /** Stamping commutes with encoding a listing, whatever incomplete entry follows it. */
  lemma {:induction false} StampedListing(entries: seq<Stat>, dev: uint32, unix: bool, tail: bytes)
    requires AllFit(entries, unix) && !WholeEntry(tail)
    ensures Stamped(StatBlobs(entries, unix) + tail, dev) == StatBlobs(AllWithDev(entries, dev), unix) + tail
  {
    hide StatBlob, StatFits, StampEntry, FromLittleEndian;
    if entries == [] {
      assert StatBlobs(entries, unix) + tail == tail;
    } else {
      var first, more := StatBlob(entries[0], unix), StatBlobs(entries[1..], unix) + tail;
      StampedBlob(entries[0], dev, unix);
      StampedListing(entries[1..], dev, unix, tail);
      StampedFirst(first, more, dev);
      assert StatBlobs(entries, unix) + tail == first + more;
      assert AllWithDev(entries, dev)[1..] == AllWithDev(entries[1..], dev);
    }
  }

  lemma StampedFirst(first: bytes, more: bytes, dev: uint32)
    requires WholeEntry(first) && EntrySize(first) == |first|
    ensures Stamped(first + more, dev) == StampEntry(first, dev) + Stamped(more, dev)
  {
    assert (first + more)[..2] == first[..2];
    assert (first + more)[..|first|] == first && (first + more)[|first|..] == more;
  }

  /** So stamping any page of a listing is paging the stamped listing: the same offsets, the same
      refusals, the same entries with their dev replaced. */
  lemma {:induction false} StampedPage(entries: seq<Stat>, offset: int, room: nat, dev: uint32, unix: bool)
    requires AllFit(entries, unix)
    ensures var page := ReadPage(entries, offset, room, unix);
            ReadPage(AllWithDev(entries, dev), offset, room, unix)
            == if page.Entries? then Entries(Stamped(page.data, dev)) else page
  {
    hide StatBlob, StatFits, FromLittleEndian, StampEntry;
    if entries != [] {
      SameSize(entries[0], dev, unix);
      assert AllWithDev(entries, dev)[1..] == AllWithDev(entries[1..], dev);
    }
    if offset == 0 && entries != [] {
      SameFit(entries, room, dev, unix);
      var k := Fit(entries, room, unix);
      assert AllWithDev(entries, dev)[..k] == AllWithDev(entries[..k], dev);
      assert !WholeEntry([]);
      StampedListing(entries[..k], dev, unix, []);
      assert StatBlobs(entries[..k], unix) + [] == StatBlobs(entries[..k], unix);
      assert StatBlobs(AllWithDev(entries[..k], dev), unix) + [] == StatBlobs(AllWithDev(entries[..k], dev), unix);
    } else if offset > 0 && entries != [] && |StatBlob(entries[0], unix)| <= offset {
      StampedPage(entries[1..], offset - |StatBlob(entries[0], unix)|, room, dev, unix);
    }
  }

  lemma SameSize(e: Stat, dev: uint32, unix: bool)
    requires StatFits(PlainPart(e, unix), unix)
    ensures |StatBlob(WithDev(e, dev), unix)| == |StatBlob(e, unix)|
  {
    StampedBlob(e, dev, unix);
  }

  lemma {:induction false} SameFit(entries: seq<Stat>, room: nat, dev: uint32, unix: bool)
    requires AllFit(entries, unix)
    ensures Fit(AllWithDev(entries, dev), room, unix) == Fit(entries, room, unix)
  {
    hide StatBlob, StatFits;
    if entries != [] {
      SameSize(entries[0], dev, unix);
      assert AllWithDev(entries, dev)[1..] == AllWithDev(entries[1..], dev);
      if |StatBlob(entries[0], unix)| <= room {
        SameFit(entries[1..], room - |StatBlob(entries[0], unix)|, dev, unix);
      }
    }
  }
}
