/** The 27 messages of 9P2000 and 9P2000.u, their layouts, and the frame around them
    (fcall.go, qid.go, stat.go, framing.go). */
module Messages {
  import opened Bytes
  import opened Layout

  datatype Qid = Qid(qtype: uint8, version: uint32, path: uint64)

  datatype Stat = Stat(
    stype: uint16, dev: uint32, qid: Qid, mode: uint32, atime: uint32, mtime: uint32,
    length: uint64, name: bytes, uid: bytes, gid: bytes, muid: bytes,
    extension: bytes, nuid: uint32, ngid: uint32, nmuid: uint32)

  datatype Message =
    | Tversion(msize: uint32, version: bytes)
    | Rversion(msize: uint32, version: bytes)
    | Tauth(afid: uint32, uname: bytes, aname: bytes)
    | Rauth(qid: Qid)
    | Tattach(fid: uint32, afid: uint32, uname: bytes, aname: bytes)
    | Rattach(qid: Qid)
    | Rerror(ename: bytes)
    | Tflush(oldtag: uint16)
    | Rflush
    | Twalk(fid: uint32, newfid: uint32, names: seq<bytes>)
    | Rwalk(qids: seq<Qid>)
    | Topen(fid: uint32, mode: uint32)
    | Ropen(qid: Qid, iounit: uint32)
    | Tcreate(fid: uint32, name: bytes, perm: uint32, mode: uint32, extension: bytes)
    | Rcreate(qid: Qid, iounit: uint32)
    | Tread(fid: uint32, offset: uint64, count: uint32)
    | Rread(data: bytes)
    | Twrite(fid: uint32, offset: uint64, data: bytes)
    | Rwrite(count: uint32)
    | Tclunk(fid: uint32)
    | Rclunk
    | Tremove(fid: uint32)
    | Rremove
    | Tstat(fid: uint32)
    | Rstat(stat: Stat)
    | Twstat(fid: uint32, stat: Stat)
    | Rwstat

  function TypeOf(m: Message): uint8
  {
    match m
    case Tversion(_, _) => 100
    case Rversion(_, _) => 101
    case Tauth(_, _, _) => 102
    case Rauth(_) => 103
    case Tattach(_, _, _, _) => 104
    case Rattach(_) => 105
    case Rerror(_) => 107
    case Tflush(_) => 108
    case Rflush => 109
    case Twalk(_, _, _) => 110
    case Rwalk(_) => 111
    case Topen(_, _) => 112
    case Ropen(_, _) => 113
    case Tcreate(_, _, _, _, _) => 114
    case Rcreate(_, _) => 115
    case Tread(_, _, _) => 116
    case Rread(_) => 117
    case Twrite(_, _, _) => 118
    case Rwrite(_) => 119
    case Tclunk(_) => 120
    case Rclunk => 121
    case Tremove(_) => 122
    case Rremove => 123
    case Tstat(_) => 124
    case Rstat(_) => 125
    case Twstat(_, _) => 126
    case Rwstat => 127
  }

  // ----- layouts -----

  const QID: Kind := KRow([KNum(1), KNum(4), KNum(8)])

  function StatKinds(unix: bool): seq<Kind>
  {
    [KNum(2), KNum(4), QID, KNum(4), KNum(4), KNum(4), KNum(8), KText, KText, KText, KText]
    + if unix then [KText, KNum(4), KNum(4), KNum(4)] else []
  }

  /** The body layout of message type t; None for a type that does not exist. */
  function Kinds(t: uint8, unix: bool): Option<seq<Kind>>
  {
    match t
    case 100 => Some([KNum(4), KText])
    case 101 => Some([KNum(4), KText])
    case 102 => Some([KNum(4), KText, KText])
    case 103 => Some([QID])
    case 104 => Some([KNum(4), KNum(4), KText, KText])
    case 105 => Some([QID])
    case 107 => Some([KText])
    case 108 => Some([KNum(2)])
    case 109 => Some([])
    case 110 => Some([KNum(4), KNum(4), KList(KText)])
    case 111 => Some([KList(QID)])
    case 112 => Some([KNum(4), KNum(1)])
    case 113 => Some([QID, KNum(4)])
    case 114 => Some([KNum(4), KText, KNum(4), KNum(1)] + if unix then [KText] else [])
    case 115 => Some([QID, KNum(4)])
    case 116 => Some([KNum(4), KNum(8), KNum(4)])
    case 117 => Some([KBlob])
    case 118 => Some([KNum(4), KNum(8), KBlob])
    case 119 => Some([KNum(4)])
    case 120 => Some([KNum(4)])
    case 121 => Some([])
    case 122 => Some([KNum(4)])
    case 123 => Some([])
    case 124 => Some([KNum(4)])
    case 125 => Some([KGroup(StatKinds(unix))])
    case 126 => Some([KNum(4), KGroup(StatKinds(unix))])
    case 127 => Some([])
    case _ => None
  }

  function QidField(q: Qid): Field
  {
    Row([Num(1, q.qtype), Num(4, q.version), Num(8, q.path)])
  }

  function StatFields(s: Stat, unix: bool): seq<Field>
  {
    [Num(2, s.stype), Num(4, s.dev), QidField(s.qid), Num(4, s.mode), Num(4, s.atime),
     Num(4, s.mtime), Num(8, s.length), Text(s.name), Text(s.uid), Text(s.gid), Text(s.muid)]
    + if unix then [Text(s.extension), Num(4, s.nuid), Num(4, s.ngid), Num(4, s.nmuid)] else []
  }

  function TextFields(names: seq<bytes>): (fs: seq<Field>)
    ensures |fs| == |names|
  {
    seq(|names|, i requires 0 <= i < |names| => Text(names[i]))
  }

  function QidFields(qids: seq<Qid>): (fs: seq<Field>)
    ensures |fs| == |qids|
  {
    seq(|qids|, i requires 0 <= i < |qids| => QidField(qids[i]))
  }

  function Fields(m: Message, unix: bool): seq<Field>
  {
    match m
    case Tversion(msize, version) => [Num(4, msize), Text(version)]
    case Rversion(msize, version) => [Num(4, msize), Text(version)]
    case Tauth(afid, uname, aname) => [Num(4, afid), Text(uname), Text(aname)]
    case Rauth(qid) => [QidField(qid)]
    case Tattach(fid, afid, uname, aname) => [Num(4, fid), Num(4, afid), Text(uname), Text(aname)]
    case Rattach(qid) => [QidField(qid)]
    case Rerror(ename) => [Text(ename)]
    case Tflush(oldtag) => [Num(2, oldtag)]
    case Rflush => []
    case Twalk(fid, newfid, names) => [Num(4, fid), Num(4, newfid), List(TextFields(names))]
    case Rwalk(qids) => [List(QidFields(qids))]
    case Topen(fid, mode) => [Num(4, fid), Num(1, mode)]
    case Ropen(qid, iounit) => [QidField(qid), Num(4, iounit)]
    case Tcreate(fid, name, perm, mode, extension) =>
      [Num(4, fid), Text(name), Num(4, perm), Num(1, mode)] + if unix then [Text(extension)] else []
    case Rcreate(qid, iounit) => [QidField(qid), Num(4, iounit)]
    case Tread(fid, offset, count) => [Num(4, fid), Num(8, offset), Num(4, count)]
    case Rread(data) => [Blob(data)]
    case Twrite(fid, offset, data) => [Num(4, fid), Num(8, offset), Blob(data)]
    case Rwrite(count) => [Num(4, count)]
    case Tclunk(fid) => [Num(4, fid)]
    case Rclunk => []
    case Tremove(fid) => [Num(4, fid)]
    case Rremove => []
    case Tstat(fid) => [Num(4, fid)]
    case Rstat(stat) => [Group(StatFields(stat, unix))]
    case Twstat(fid, stat) => [Num(4, fid), Group(StatFields(stat, unix))]
    case Rwstat => []
  }

  // ----- from fields back to messages -----

  predicate Has(k: Kind, f: Field)
  {
    Matches(k, f) && Fits(f)
  }

  /** The parts of a composite field have the kinds its layout says. */
  lemma Parts(k: Kind, f: Field)
    requires Has(k, f)
    ensures k.KRow? || k.KGroup? ==> f.Row? || f.Group?
    ensures k.KRow? || k.KGroup? ==> |k.ks| == |f.fs| && forall i :: 0 <= i < |f.fs| ==> Has(k.ks[i], f.fs[i])
    ensures k.KList? ==> f.List? && forall i :: 0 <= i < |f.items| ==> Has(k.k, f.items[i])
  {
    if k.KRow? || k.KGroup? {
      assert MatchesAll(k.ks, f.fs) && FitsAll(f.fs);
    } else if k.KList? {
      assert FitsAll(f.items);
    }
  }

  function ToUint8(f: Field): uint8
    requires Has(KNum(1), f)
  {
    SpanOfWidths();
    f.val
  }

  function ToUint16(f: Field): uint16
    requires Has(KNum(2), f)
  {
    SpanOfWidths();
    f.val
  }

  function ToUint32(f: Field): uint32
    requires Has(KNum(4), f)
  {
    SpanOfWidths();
    f.val
  }

  function ToUint64(f: Field): uint64
    requires Has(KNum(8), f)
  {
    SpanOfWidths();
    f.val
  }

  function ToQid(f: Field): Qid
    requires Has(QID, f)
  {
    Parts(QID, f);
    Qid(ToUint8(f.fs[0]), ToUint32(f.fs[1]), ToUint64(f.fs[2]))
  }

  function ToNames(f: Field): seq<bytes>
    requires Has(KList(KText), f)
  {
    Parts(KList(KText), f);
    seq(|f.items|, i requires 0 <= i < |f.items| => f.items[i].s)
  }

  function ToQids(f: Field): seq<Qid>
    requires Has(KList(QID), f)
  {
    Parts(KList(QID), f);
    seq(|f.items|, i requires 0 <= i < |f.items| => ToQid(f.items[i]))
  }

  predicate IsPlainStat(fs: seq<Field>)
  {
    && |fs| >= 11
    && Has(KNum(2), fs[0]) && Has(KNum(4), fs[1]) && Has(QID, fs[2]) && Has(KNum(4), fs[3])
    && Has(KNum(4), fs[4]) && Has(KNum(4), fs[5]) && Has(KNum(8), fs[6])
    && fs[7].Text? && fs[8].Text? && fs[9].Text? && fs[10].Text?
  }

  predicate IsUnixStat(fs: seq<Field>)
  {
    |fs| == 15 && fs[11].Text? && Has(KNum(4), fs[12]) && Has(KNum(4), fs[13]) && Has(KNum(4), fs[14])
  }

  lemma StatParts(f: Field, unix: bool)
    requires Has(KGroup(StatKinds(unix)), f)
    ensures IsPlainStat(f.fs) && (if unix then IsUnixStat(f.fs) else |f.fs| == 11)
  {
    var ks := StatKinds(unix);
    Parts(KGroup(ks), f);
    assert Has(ks[0], f.fs[0]) && Has(ks[1], f.fs[1]) && Has(ks[2], f.fs[2]) && Has(ks[3], f.fs[3]);
    assert Has(ks[4], f.fs[4]) && Has(ks[5], f.fs[5]) && Has(ks[6], f.fs[6]) && Has(ks[7], f.fs[7]);
    assert Has(ks[8], f.fs[8]) && Has(ks[9], f.fs[9]) && Has(ks[10], f.fs[10]);
    if unix {
      assert Has(ks[11], f.fs[11]) && Has(ks[12], f.fs[12]) && Has(ks[13], f.fs[13]) && Has(ks[14], f.fs[14]);
    }
  }

  function PlainStat(fs: seq<Field>): Stat
    requires IsPlainStat(fs)
  {
    Stat(ToUint16(fs[0]), ToUint32(fs[1]), ToQid(fs[2]), ToUint32(fs[3]), ToUint32(fs[4]),
         ToUint32(fs[5]), ToUint64(fs[6]), fs[7].s, fs[8].s, fs[9].s, fs[10].s, [], 0, 0, 0)
  }

  function ToStat(f: Field, unix: bool): Stat
    requires Has(KGroup(StatKinds(unix)), f)
  {
    StatParts(f, unix);
    var fs := f.fs;
    if unix then
      PlainStat(fs).(extension := fs[11].s, nuid := ToUint32(fs[12]), ngid := ToUint32(fs[13]), nmuid := ToUint32(fs[14]))
    else PlainStat(fs)
  }

  function Build(t: uint8, fs: seq<Field>, unix: bool): Message
    requires Kinds(t, unix).Some?
    requires MatchesAll(Kinds(t, unix).value, fs) && FitsAll(fs)
  {
    assert forall i :: 0 <= i < |fs| ==> Has(Kinds(t, unix).value[i], fs[i]);
    match t
    case 100 => Tversion(ToUint32(fs[0]), fs[1].s)
    case 101 => Rversion(ToUint32(fs[0]), fs[1].s)
    case 102 => Tauth(ToUint32(fs[0]), fs[1].s, fs[2].s)
    case 103 => Rauth(ToQid(fs[0]))
    case 104 => Tattach(ToUint32(fs[0]), ToUint32(fs[1]), fs[2].s, fs[3].s)
    case 105 => Rattach(ToQid(fs[0]))
    case 107 => Rerror(fs[0].s)
    case 108 => Tflush(ToUint16(fs[0]))
    case 109 => Rflush
    case 110 => Twalk(ToUint32(fs[0]), ToUint32(fs[1]), ToNames(fs[2]))
    case 111 => Rwalk(ToQids(fs[0]))
    case 112 => Topen(ToUint32(fs[0]), ToUint8(fs[1]))
    case 113 => Ropen(ToQid(fs[0]), ToUint32(fs[1]))
    case 114 => Tcreate(ToUint32(fs[0]), fs[1].s, ToUint32(fs[2]), ToUint8(fs[3]), if unix then fs[4].s else [])
    case 115 => Rcreate(ToQid(fs[0]), ToUint32(fs[1]))
    case 116 => Tread(ToUint32(fs[0]), ToUint64(fs[1]), ToUint32(fs[2]))
    case 117 => Rread(fs[0].data)
    case 118 => Twrite(ToUint32(fs[0]), ToUint64(fs[1]), fs[2].data)
    case 119 => Rwrite(ToUint32(fs[0]))
    case 120 => Tclunk(ToUint32(fs[0]))
    case 121 => Rclunk
    case 122 => Tremove(ToUint32(fs[0]))
    case 123 => Rremove
    case 124 => Tstat(ToUint32(fs[0]))
    case 125 => Rstat(ToStat(fs[0], unix))
    case 126 => Twstat(ToUint32(fs[0]), ToStat(fs[1], unix))
    case 127 => Rwstat
  }

  // ----- what survives the wire -----

  /** A Stat the wire can carry: its body fits the 16-bit size prefix, and the fields that
      only 9P2000.u has are empty on a plain connection. */
  predicate StatFits(s: Stat, unix: bool)
  {
    if unix then 61 + |s.name| + |s.uid| + |s.gid| + |s.muid| + |s.extension| <= 0xFFFF
    else
      && 47 + |s.name| + |s.uid| + |s.gid| + |s.muid| <= 0xFFFF
      && s.extension == [] && s.nuid == s.ngid == s.nmuid == 0
  }

  /** A message the wire can carry, in terms of its own fields. */
  predicate WellFormed(m: Message, unix: bool)
  {
    match m
    case Tversion(_, version) => |version| <= MAX_TEXT
    case Rversion(_, version) => |version| <= MAX_TEXT
    case Tauth(_, uname, aname) => |uname| <= MAX_TEXT && |aname| <= MAX_TEXT
    case Tattach(_, _, uname, aname) => |uname| <= MAX_TEXT && |aname| <= MAX_TEXT
    case Rerror(ename) => |ename| <= MAX_TEXT
    case Twalk(_, _, names) =>
      |names| <= MAX_WALK_ELEMENTS && forall i :: 0 <= i < |names| ==> |names[i]| <= MAX_TEXT
    case Rwalk(qids) => |qids| <= MAX_WALK_ELEMENTS
    case Topen(_, mode) => mode < 0x100
    case Tcreate(_, name, _, mode, extension) =>
      |name| <= MAX_TEXT && mode < 0x100 && (if unix then |extension| <= MAX_TEXT else extension == [])
    case Rread(data) => 11 + |data| < 0x1_0000_0000
    case Twrite(_, _, data) => 23 + |data| < 0x1_0000_0000
    case Rstat(stat) => StatFits(stat, unix)
    case Twstat(_, stat) => StatFits(stat, unix)
    case _ => true
  }

  // ----- frames -----

  const MIN_FRAME: nat := 7

  function Header(size: nat, t: uint8, tag: uint16): bytes
  {
    LittleEndian(size, 4) + [t] + LittleEndian(tag, 2)
  }

  /** The complete wire form of a message. */
  function Frame(tag: uint16, m: Message, unix: bool): bytes
  {
    var body := EncodeAll(Fields(m, unix));
    Header(MIN_FRAME + |body|, TypeOf(m), tag) + body
  }

  function DecodeBody(t: uint8, b: bytes, unix: bool): Result<Message>
  {
    match Kinds(t, unix)
    case None => Err(UnknownType)
    case Some(ks) =>
      var (fs, rest) :- ParseAll(ks, b);
      if rest != [] then Err(TrailingBytes) else
      EncodeParseAll(ks, b);
      Ok(Build(t, fs, unix))
  }

  function DecodeFrame(raw: bytes, unix: bool): Result<(uint16, Message)>
  {
    if |raw| < MIN_FRAME || FromLittleEndian(raw[..4]) != |raw| then Err(Truncated) else
    var m :- DecodeBody(raw[4], raw[7..], unix);
    EncodeDecodeInt(raw[5..7]);
    SpanOfWidths();
    Ok((FromLittleEndian(raw[5..7]), m))
  }
}
