/** The encoder of encode.go, stat.go and fcall.go, writing into a growing buffer. */
module Encoding {
  import opened Bytes
  import opened Layout
  import opened Messages

  class Encoder {
    var buf: bytes
    const unix: bool
    ghost const start: bytes
    ghost var fields: seq<Field>    // the fields written since `start`

    ghost predicate Valid()
      reads this
    {
      buf == start + EncodeAll(fields)
    }

    constructor (start: bytes, unix: bool)
      ensures Valid() && buf == start && this.start == start && fields == [] && this.unix == unix
    {
      this.buf, this.unix, this.start, this.fields := start, unix, start, [];
    }

    /** Records that the bytes just written are one field. */
    ghost method Note(f: Field, before: seq<Field>, mark: bytes)
      requires mark == start + EncodeAll(before) && buf == mark + Encode(f)
      modifies this`fields
      ensures Valid() && fields == before + [f]
    {
      Append(before, f, []);
      fields := before + [f];
    }

    method Uint8(v: nat)
      requires Valid()
      modifies this
      ensures Valid() && fields == old(fields) + [Num(1, v)]
    {
      ghost var before, mark := fields, buf;
      buf := buf + LittleEndian(v, 1);
      Note(Num(1, v), before, mark);
    }

    method Uint16(v: nat)
      requires Valid()
      modifies this
      ensures Valid() && fields == old(fields) + [Num(2, v)]
    {
      ghost var before, mark := fields, buf;
      buf := buf + LittleEndian(v, 2);
      Note(Num(2, v), before, mark);
    }

    method Uint32(v: nat)
      requires Valid()
      modifies this
      ensures Valid() && fields == old(fields) + [Num(4, v)]
    {
      ghost var before, mark := fields, buf;
      buf := buf + LittleEndian(v, 4);
      Note(Num(4, v), before, mark);
    }

    method Uint64(v: nat)
      requires Valid()
      modifies this
      ensures Valid() && fields == old(fields) + [Num(8, v)]
    {
      ghost var before, mark := fields, buf;
      buf := buf + LittleEndian(v, 8);
      Note(Num(8, v), before, mark);
    }

    /** Raw bytes, with no prefix of their own. */
    method Bytes(p: bytes)
      modifies this`buf
      ensures buf == old(buf) + p
    {
      buf := buf + p;
    }

    /** A counted string, cut to what its prefix can say. */
    method String(s: bytes)
      requires Valid()
      modifies this
      ensures Valid() && fields == old(fields) + [Text(s)]
    {
      ghost var before, mark := fields, buf;
      var t := s;
      if |t| > MAX_TEXT {
        t := t[..MAX_TEXT];
      }
      Uint16(|t|);
      Append(before, Num(2, |t|), []);
      Bytes(t);
      assert buf == mark + (LittleEndian(|t|, 2) + t);
      Note(Text(s), before, mark);
    }

    method Data(p: bytes)
      requires Valid()
      modifies this
      ensures Valid() && fields == old(fields) + [Blob(p)]
    {
      ghost var before, mark := fields, buf;
      Uint32(|p|);
      Append(before, Num(4, |p|), []);
      Bytes(p);
      assert buf == mark + (LittleEndian(|p|, 4) + p);
      Note(Blob(p), before, mark);
    }

    method PutQid(q: Qid)
      requires Valid()
      modifies this
      ensures Valid() && fields == old(fields) + [QidField(q)]
    {
      ghost var before, mark := fields, buf;
      Uint8(q.qtype);
      Uint32(q.version);
      Uint64(q.path);
      var row := [Num(1, q.qtype), Num(4, q.version), Num(8, q.path)];
      assert fields == before + row;
      RowEncoding(before, row, mark);
      Note(QidField(q), before, mark);
    }

    /** The size-prefixed Stat of stat(5); the prefix is the low 16 bits of the body's length. */
    method PutStat(s: Stat)
      requires Valid()
      modifies this
      ensures Valid() && fields == old(fields) + [Group(StatFields(s, unix))]
    {
      ghost var before, mark := fields, buf;
      var body := StatBody(s, unix);
      Uint16(|body|);
      Append(before, Num(2, |body|), []);
      Bytes(body);
      assert buf == mark + (LittleEndian(|body|, 2) + body);
      Note(Group(StatFields(s, unix)), before, mark);
    }

    method Strings(names: seq<bytes>)
      requires Valid()
      modifies this
      ensures Valid() && fields == old(fields) + [List(TextFields(names))]
    {
      ghost var before, mark := fields, buf;
      Uint16(|names|);
      ghost var counted := fields;
      var i := 0;
      while i < |names|
        invariant 0 <= i <= |names|
        invariant Valid() && fields == counted + TextFields(names)[..i]
      {
        String(names[i]);
        i := i + 1;
      }
      ListEncoding(before, TextFields(names), mark);
      Note(List(TextFields(names)), before, mark);
    }

    method PutQids(qids: seq<Qid>)
      requires Valid()
      modifies this
      ensures Valid() && fields == old(fields) + [List(QidFields(qids))]
    {
      ghost var before, mark := fields, buf;
      Uint16(|qids|);
      ghost var counted := fields;
      var i := 0;
      while i < |qids|
        invariant 0 <= i <= |qids|
        invariant Valid() && fields == counted + QidFields(qids)[..i]
      {
        PutQid(qids[i]);
        i := i + 1;
      }
      ListEncoding(before, QidFields(qids), mark);
      Note(List(QidFields(qids)), before, mark);
    }

    lemma RowEncoding(before: seq<Field>, row: seq<Field>, mark: bytes)
      requires Valid() && mark == start + EncodeAll(before) && fields == before + row
      ensures buf == mark + Encode(Row(row))
    {
      EncodeConcat(before, row);
    }

    lemma ListEncoding(before: seq<Field>, items: seq<Field>, mark: bytes)
      requires Valid() && mark == start + EncodeAll(before)
      requires fields == before + [Num(2, |items|)] + items[..|items|]
      ensures buf == mark + Encode(List(items))
    {
      assert items[..|items|] == items;
      Append(before, Num(2, |items|), []);
      EncodeConcat(before + [Num(2, |items|)], items);
    }

    /** marshalBody of every message: what is written is the message's layout. */
    method MarshalBody(m: Message)
      requires Valid() && fields == []
      modifies this
      ensures Valid() && fields == Fields(m, unix)
    {
      hide EncodeAll;
      if TypeOf(m) < 110 {
        MarshalSession(m);
      } else if TypeOf(m) < 116 {
        MarshalOpen(m);
      } else {
        MarshalFile(m);
      }
    }

    method MarshalSession(m: Message)
      requires Valid() && fields == [] && TypeOf(m) < 110
      modifies this
      ensures Valid() && fields == Fields(m, unix)
    {
      hide EncodeAll;
      match m {
        case Tversion(msize, version) => Uint32(msize); String(version);
        case Rversion(msize, version) => Uint32(msize); String(version);
        case Tauth(afid, uname, aname) => Uint32(afid); String(uname); String(aname);
        case Rauth(qid) => PutQid(qid);
        case Tattach(fid, afid, uname, aname) => Uint32(fid); Uint32(afid); String(uname); String(aname);
        case Rattach(qid) => PutQid(qid);
        case Rerror(ename) => String(ename);
        case Tflush(oldtag) => Uint16(oldtag);
        case Rflush =>
      }
    }

    method MarshalOpen(m: Message)
      requires Valid() && fields == [] && 110 <= TypeOf(m) < 116
      modifies this
      ensures Valid() && fields == Fields(m, unix)
    {
      hide EncodeAll;
      match m {
        case Twalk(fid, newfid, names) => Uint32(fid); Uint32(newfid); Strings(names);
        case Rwalk(qids) => PutQids(qids);
        case Topen(fid, mode) => Uint32(fid); Uint8(mode);
        case Ropen(qid, iounit) => PutQid(qid); Uint32(iounit);
        case Tcreate(fid, name, perm, mode, extension) =>
          Uint32(fid);
          String(name);
          Uint32(perm);
          Uint8(mode);
          if unix {
            String(extension);
          }
        case Rcreate(qid, iounit) => PutQid(qid); Uint32(iounit);
      }
    }

    method MarshalFile(m: Message)
      requires Valid() && fields == [] && 116 <= TypeOf(m)
      modifies this
      ensures Valid() && fields == Fields(m, unix)
    {
      hide EncodeAll;
      match m {
        case Tread(fid, offset, count) => Uint32(fid); Uint64(offset); Uint32(count);
        case Rread(data) => Data(data);
        case Twrite(fid, offset, data) => Uint32(fid); Uint64(offset); Data(data);
        case Rwrite(count) => Uint32(count);
        case Tclunk(fid) => Uint32(fid);
        case Rclunk =>
        case Tremove(fid) => Uint32(fid);
        case Rremove =>
        case Tstat(fid) => Uint32(fid);
        case Rstat(stat) => PutStat(stat);
        case Twstat(fid, stat) => Uint32(fid); PutStat(stat);
        case Rwstat =>
      }
    }
  }

  /** The body of a Stat, written by an encoder of its own. */
  method StatBody(s: Stat, unix: bool) returns (body: bytes)
    ensures body == EncodeAll(StatFields(s, unix))
  {
    var e := new Encoder([], unix);
    StatNumbers(e, s);
    StatStrings(e, s);
    if unix {
      StatUnix(e, s);
    }
    assert e.fields == StatFields(s, unix);
    assert [] + EncodeAll(e.fields) == EncodeAll(e.fields);
    body := e.buf;
  }

  method StatNumbers(e: Encoder, s: Stat)
    requires e.Valid()
    modifies e
    ensures e.Valid()
    ensures e.fields == old(e.fields) + StatFields(s, false)[..7]
  {
    hide EncodeAll;
    e.Uint16(s.stype);
    e.Uint32(s.dev);
    e.PutQid(s.qid);
    e.Uint32(s.mode);
    e.Uint32(s.atime);
    e.Uint32(s.mtime);
    e.Uint64(s.length);
  }

  method StatUnix(e: Encoder, s: Stat)
    requires e.Valid()
    modifies e
    ensures e.Valid()
    ensures e.fields == old(e.fields) + [Text(s.extension), Num(4, s.nuid), Num(4, s.ngid), Num(4, s.nmuid)]
  {
    hide EncodeAll;
    e.String(s.extension);
    e.Uint32(s.nuid);
    e.Uint32(s.ngid);
    e.Uint32(s.nmuid);
  }

  method StatStrings(e: Encoder, s: Stat)
    requires e.Valid()
    modifies e
    ensures e.Valid()
    ensures e.fields == old(e.fields) + [Text(s.name), Text(s.uid), Text(s.gid), Text(s.muid)]
  {
    hide EncodeAll;
    e.String(s.name);
    e.String(s.uid);
    e.String(s.gid);
    e.String(s.muid);
  }

  /** A complete frame: a placeholder for the size, the type and the tag, the body, and then the
      size patched in place. */
  method MarshalVersion(tag: uint16, m: Message, unix: bool) returns (out: array<byte>)
    ensures fresh(out) && out[..] == Frame(tag, m, unix)
  {
    var raw := Unsized(tag, m, unix);
    out := new byte[|raw|](i requires 0 <= i < |raw| => raw[i]);
    assert out[..] == raw;
    PutSize(out, out.Length);
  }

  method Unsized(tag: uint16, m: Message, unix: bool) returns (raw: bytes)
    ensures |raw| == MIN_FRAME + |EncodeAll(Fields(m, unix))|
    ensures LittleEndian(|raw|, 4) + raw[4..] == Frame(tag, m, unix)
  {
    hide EncodeAll;
    var rest := [TypeOf(m)] + LittleEndian(tag, 2);
    var e := new Encoder([0, 0, 0, 0] + rest, unix);
    e.MarshalBody(m);
    raw := e.buf;
    SizedFrame(tag, m, unix, raw, rest);
  }

  lemma SizedFrame(tag: uint16, m: Message, unix: bool, raw: bytes, rest: bytes)
    requires rest == [TypeOf(m)] + LittleEndian(tag, 2)
    requires raw == [0, 0, 0, 0] + rest + EncodeAll(Fields(m, unix))
    ensures |raw| == MIN_FRAME + |EncodeAll(Fields(m, unix))|
    ensures LittleEndian(|raw|, 4) + raw[4..] == Frame(tag, m, unix)
  {
    hide EncodeAll;
    var body := EncodeAll(Fields(m, unix));
    assert raw[4..] == rest + body;
    assert LittleEndian(|raw|, 4) + (rest + body) == LittleEndian(|raw|, 4) + [TypeOf(m)] + LittleEndian(tag, 2) + body;
  }

  method PutSize(out: array<byte>, size: nat)
    requires out.Length >= 4
    modifies out
    ensures out[..] == LittleEndian(size, 4) + old(out[..])[4..]
  {
    var b := LittleEndian(size, 4);
    out[0], out[1], out[2], out[3] := b[0], b[1], b[2], b[3];
    assert out[..4] == b && out[4..] == old(out[..])[4..];
    assert out[..] == out[..4] + out[4..];
  }

  /** A Stat as it appears in a directory read: its body behind its size prefix. */
  method MarshalStat(s: Stat, unix: bool) returns (blob: bytes)
    ensures blob == Encode(Group(StatFields(s, unix)))
  {
    var e := new Encoder([], unix);
    e.PutStat(s);
    Append([], Group(StatFields(s, unix)), []);
    assert [] + [Group(StatFields(s, unix))] == [Group(StatFields(s, unix))];
    blob := e.buf;
  }
}
