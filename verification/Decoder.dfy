/** The sticky-error decoder of decode.go, stat.go and fcall.go, and the framing of framing.go. */
module Decoding {
  import opened Bytes
  import opened Layout
  import opened Messages
  import opened RoundTrip

  /** One read of a field of kind k: what it does to the unread input, or to the error already
      there. */
  ghost predicate Reads(k: Kind, before: Result<bytes>, after: Result<bytes>, f: Field)
  {
    match before
    case Err(e) => after == Err(e)
    case Ok(b) =>
      match Parse(k, b)
      case Err(e) => after == Err(e)
      case Ok((g, rest)) => after == Ok(rest) && g == f
  }

  ghost predicate ReadsAll(ks: seq<Kind>, before: Result<bytes>, after: Result<bytes>, fs: seq<Field>)
  {
    match before
    case Err(e) => after == Err(e)
    case Ok(b) =>
      match ParseAll(ks, b)
      case Err(e) => after == Err(e)
      case Ok((gs, rest)) => after == Ok(rest) && gs == fs
  }

  lemma Chain(ks: seq<Kind>, fs: seq<Field>, s0: Result<bytes>, s1: Result<bytes>, k: Kind, f: Field, s2: Result<bytes>)
    requires ReadsAll(ks, s0, s1, fs) && Reads(k, s1, s2, f)
    ensures ReadsAll(ks + [k], s0, s2, fs + [f])
  {
    assert (ks + [k])[..|ks|] == ks;
  }

  ghost predicate ReadsItems(k: Kind, n: nat, before: Result<bytes>, after: Result<bytes>, fs: seq<Field>)
  {
    match before
    case Err(e) => after == Err(e)
    case Ok(b) =>
      match ParseItems(k, n, b)
      case Err(e) => after == Err(e)
      case Ok((gs, rest)) => after == Ok(rest) && gs == fs
  }

  lemma NextItem(k: Kind, n: nat, s0: Result<bytes>, s1: Result<bytes>, fs: seq<Field>, f: Field, s2: Result<bytes>)
    requires ReadsItems(k, n, s0, s1, fs) && Reads(k, s1, s2, f)
    ensures ReadsItems(k, n + 1, s0, s2, fs + [f])
  {
  }

  /** Three integers read in turn are one Qid read. */
  lemma QidInThree(s0: Result<bytes>, s1: Result<bytes>, s2: Result<bytes>, s3: Result<bytes>, q: Qid)
    requires Reads(KNum(1), s0, s1, Num(1, q.qtype))
    requires Reads(KNum(4), s1, s2, Num(4, q.version))
    requires Reads(KNum(8), s2, s3, Num(8, q.path))
    ensures Reads(QID, s0, s3, QidField(q))
  {
    var ks, fs := QID.ks, QidField(q).fs;
    assert ReadsAll([], s0, s0, []);
    Chain([], [], s0, s0, ks[0], fs[0], s1);
    Chain([] + [ks[0]], [] + [fs[0]], s0, s1, ks[1], fs[1], s2);
    Chain([] + [ks[0]] + [ks[1]], [] + [fs[0]] + [fs[1]], s0, s2, ks[2], fs[2], s3);
    assert [] + [ks[0]] + [ks[1]] + [ks[2]] == ks;
    assert [] + [fs[0]] + [fs[1]] + [fs[2]] == fs;
  }

  /** A count and then that many items are one list read, unless the count is too large. */
  lemma ListOfCounted(k: Kind, n: nat, s0: Result<bytes>, s1: Result<bytes>, s2: Result<bytes>, fs: seq<Field>)
    requires Reads(KNum(2), s0, s1, Num(2, n))
    requires if n > MAX_WALK_ELEMENTS then s2 == (if s1.Ok? then Err(TooManyElements) else s1)
             else ReadsItems(k, n, s1, s2, fs)
    ensures Reads(KList(k), s0, s2, List(fs))
  {
  }

  class Decoder {
    var buf: bytes
    var err: Option<Error>
    const unix: bool
    ghost const input: bytes
    ghost var kinds: seq<Kind>    // what has been asked for
    ghost var got: seq<Field>     // what came back

    ghost function State(): Result<bytes>
      reads this
    {
      if err.None? then Ok(buf) else Err(err.value)
    }

    ghost predicate Valid()
      reads this
    {
      ReadsAll(kinds, Ok(input), State(), got)
    }

    constructor (input: bytes, unix: bool)
      ensures Valid() && State() == Ok(input) && kinds == [] && got == []
      ensures this.input == input && this.unix == unix
    {
      this.buf, this.err, this.unix := input, None, unix;
      this.input, this.kinds, this.got := input, [], [];
    }

    ghost method Note(ks: seq<Kind>, fs: seq<Field>, before: Result<bytes>, k: Kind, f: Field)
      requires ReadsAll(ks, Ok(input), before, fs) && Reads(k, before, State(), f)
      modifies this`kinds, this`got
      ensures Valid() && kinds == ks + [k] && got == fs + [f]
    {
      Chain(ks, fs, Ok(input), before, k, f, State());
      kinds, got := ks + [k], fs + [f];
    }

    /** The one bounds-checked read; a no-op once something has failed. */
    method TakeBytes(n: nat) returns (p: bytes)
      modifies this`buf, this`err
      ensures match old(State())
              case Err(e) => State() == Err(e) && p == []
              case Ok(b) =>
                match Take(b, n)
                case Err(e) => State() == Err(e) && p == []
                case Ok((q, rest)) => State() == Ok(rest) && p == q
    {
      if err.Some? {
        return [];
      }
      if n > |buf| {
        err := Some(Truncated);
        return [];
      }
      p := buf[..n];
      buf := buf[n..];
    }

    /** An integer of `width` bytes; 0 when the read fails. */
    method Integer(width: nat) returns (v: nat)
      requires Valid() && width > 0
      modifies this
      ensures Valid() && kinds == old(kinds) + [KNum(width)] && got == old(got) + [Num(width, v)]
      ensures Reads(KNum(width), old(State()), State(), Num(width, v))
      ensures v < Span(width) && (err.Some? ==> v == 0)
    {
      var p := TakeBytes(width);
      if p == [] {
        v := 0;
      } else {
        v := FromLittleEndian(p);
        EncodeDecodeInt(p);
      }
      Note(old(kinds), old(got), old(State()), KNum(width), Num(width, v));
    }

    method Uint8() returns (v: uint8)
      requires Valid()
      modifies this
      ensures Valid() && kinds == old(kinds) + [KNum(1)] && got == old(got) + [Num(1, v)]
      ensures Reads(KNum(1), old(State()), State(), Num(1, v))
    {
      SpanOfWidths();
      v := Integer(1);
    }

    method Uint16() returns (v: uint16)
      requires Valid()
      modifies this
      ensures Valid() && kinds == old(kinds) + [KNum(2)] && got == old(got) + [Num(2, v)]
      ensures Reads(KNum(2), old(State()), State(), Num(2, v)) && (err.Some? ==> v == 0)
    {
      SpanOfWidths();
      v := Integer(2);
    }

    method Uint32() returns (v: uint32)
      requires Valid()
      modifies this
      ensures Valid() && kinds == old(kinds) + [KNum(4)] && got == old(got) + [Num(4, v)]
      ensures Reads(KNum(4), old(State()), State(), Num(4, v)) && (err.Some? ==> v == 0)
    {
      SpanOfWidths();
      v := Integer(4);
    }

    method Uint64() returns (v: uint64)
      requires Valid()
      modifies this
      ensures Valid() && kinds == old(kinds) + [KNum(8)] && got == old(got) + [Num(8, v)]
      ensures Reads(KNum(8), old(State()), State(), Num(8, v))
    {
      SpanOfWidths();
      v := Integer(8);
    }

    method String() returns (s: bytes)
      requires Valid()
      modifies this
      ensures Valid() && kinds == old(kinds) + [KText] && got == old(got) + [Text(s)]
      ensures Reads(KText, old(State()), State(), Text(s))
    {
      var n := Uint16();
      s := TakeBytes(n);
      Note(old(kinds), old(got), old(State()), KText, Text(s));
    }

    method Data() returns (d: bytes)
      requires Valid()
      modifies this
      ensures Valid() && kinds == old(kinds) + [KBlob] && got == old(got) + [Blob(d)]
    {
      var n := Uint32();
      d := TakeBytes(n);
      Note(old(kinds), old(got), old(State()), KBlob, Blob(d));
    }

    method GetQid() returns (q: Qid)
      requires Valid()
      modifies this
      ensures Valid() && kinds == old(kinds) + [QID] && got == old(got) + [QidField(q)]
      ensures Reads(QID, old(State()), State(), QidField(q))
    {
      ghost var s0 := State();
      var qtype := Uint8();
      ghost var s1 := State();
      var version := Uint32();
      ghost var s2 := State();
      var path := Uint64();
      q := Qid(qtype, version, path);
      QidInThree(s0, s1, s2, State(), q);
      Note(old(kinds), old(got), s0, QID, QidField(q));
    }

    /** Names of a walk: a count that must not exceed the protocol's limit, then that many
        strings. */
    method Names() returns (names: seq<bytes>)
      requires Valid()
      modifies this
      ensures Valid() && kinds == old(kinds) + [KList(KText)]
      ensures got == old(got) + [List(TextFields(names))]
    {
      ghost var s0 := State();
      var n := Uint16();
      ghost var s1 := State();
      names := [];
      if n > MAX_WALK_ELEMENTS {
        if err.None? {
          err := Some(TooManyElements);
        }
      } else {
        var i := 0;
        while i < n
          invariant 0 <= i <= n && |names| == i
          invariant Valid() && ReadsItems(KText, i, s1, State(), TextFields(names))
        {
          ghost var si := State();
          var s := String();
          NextItem(KText, i, s1, si, TextFields(names), Text(s), State());
          assert TextFields(names + [s]) == TextFields(names) + [Text(s)];
          names := names + [s];
          i := i + 1;
        }
      }
      ListOfCounted(KText, n, s0, s1, State(), TextFields(names));
      Note(old(kinds), old(got), s0, KList(KText), List(TextFields(names)));
    }

    method Qids() returns (qids: seq<Qid>)
      requires Valid()
      modifies this
      ensures Valid() && kinds == old(kinds) + [KList(QID)]
      ensures got == old(got) + [List(QidFields(qids))]
    {
      ghost var s0 := State();
      var n := Uint16();
      ghost var s1 := State();
      qids := [];
      if n > MAX_WALK_ELEMENTS {
        if err.None? {
          err := Some(TooManyElements);
        }
      } else {
        var i := 0;
        while i < n
          invariant 0 <= i <= n && |qids| == i
          invariant Valid() && ReadsItems(QID, i, s1, State(), QidFields(qids))
        {
          ghost var si := State();
          var q := GetQid();
          NextItem(QID, i, s1, si, QidFields(qids), QidField(q), State());
          assert QidFields(qids + [q]) == QidFields(qids) + [QidField(q)];
          qids := qids + [q];
          i := i + 1;
        }
      }
      ListOfCounted(QID, n, s0, s1, State(), QidFields(qids));
      Note(old(kinds), old(got), s0, KList(QID), List(QidFields(qids)));
    }

    /** A size-prefixed Stat, decoded by a decoder of its own that must consume the whole body. */
    method GetStat() returns (s: Stat)
      requires Valid()
      modifies this
      ensures Valid() && kinds == old(kinds) + [KGroup(StatKinds(unix))]
      ensures got == old(got) + [Group(StatFields(s, unix))]
      ensures PlainPart(s, unix) == s
      ensures Reads(KGroup(StatKinds(unix)), old(State()), State(), Group(StatFields(s, unix)))
    {
      ghost var s0 := State();
      var n := Uint16();
      var body := TakeBytes(n);
      var bodyErr;
      s, bodyErr := StatFromBody(body, unix);
      if bodyErr.Some? && err.None? {
        err := bodyErr;
      }
      Note(old(kinds), old(got), s0, KGroup(StatKinds(unix)), Group(StatFields(s, unix)));
    }

    /** Whether everything was read and nothing failed. */
    method Done() returns (e: Option<Error>)
      ensures e == if err.Some? then err else if buf != [] then Some(TrailingBytes) else None
    {
      if err.Some? {
        return err;
      }
      if |buf| != 0 {
        return Some(TrailingBytes);
      }
      return None;
    }

    ghost predicate Untouched()
      reads this
    {
      Valid() && kinds == [] && got == []
    }

    /** What was asked for is ks, and what came back are the fields of m. */
    ghost predicate Carries(m: Message, ks: seq<Kind>)
      reads this
    {
      Valid() && kinds == ks && got == Fields(m, unix) && Delivered(m, unix) == m
    }

    method GetTversion() returns (m: Message)
      requires Untouched()
      modifies this
      ensures m.Tversion? && Carries(m, [KNum(4), KText])
    {
      hide ReadsAll;
      var msize := Uint32();
      var version := String();
      m := Tversion(msize, version);
    }

    method GetRversion() returns (m: Message)
      requires Untouched()
      modifies this
      ensures m.Rversion? && Carries(m, [KNum(4), KText])
    {
      hide ReadsAll;
      var msize := Uint32();
      var version := String();
      m := Rversion(msize, version);
    }

    method GetTauth() returns (m: Message)
      requires Untouched()
      modifies this
      ensures m.Tauth? && Carries(m, [KNum(4), KText, KText])
    {
      hide ReadsAll;
      var afid := Uint32();
      var uname := String();
      var aname := String();
      m := Tauth(afid, uname, aname);
    }

    method GetTattach() returns (m: Message)
      requires Untouched()
      modifies this
      ensures m.Tattach? && Carries(m, [KNum(4), KNum(4), KText, KText])
    {
      hide ReadsAll;
      var fid := Uint32();
      var afid := Uint32();
      var uname := String();
      var aname := String();
      m := Tattach(fid, afid, uname, aname);
    }

    method GetTwalk() returns (m: Message)
      requires Untouched()
      modifies this
      ensures m.Twalk? && Carries(m, [KNum(4), KNum(4), KList(KText)])
    {
      hide ReadsAll;
      var fid := Uint32();
      var newfid := Uint32();
      var names := Names();
      m := Twalk(fid, newfid, names);
    }

    method GetTopen() returns (m: Message)
      requires Untouched()
      modifies this
      ensures m.Topen? && Carries(m, [KNum(4), KNum(1)])
    {
      hide ReadsAll;
      var fid := Uint32();
      var mode := Uint8();
      m := Topen(fid, mode);
    }

    method GetRopen() returns (m: Message)
      requires Untouched()
      modifies this
      ensures m.Ropen? && Carries(m, [QID, KNum(4)])
    {
      hide ReadsAll;
      var qid := GetQid();
      var iounit := Uint32();
      m := Ropen(qid, iounit);
    }

    method GetTcreate() returns (m: Message)
      requires Untouched()
      modifies this
      ensures m.Tcreate? && Carries(m, [KNum(4), KText, KNum(4), KNum(1)] + if unix then [KText] else [])
    {
      hide ReadsAll;
      var fid := Uint32();
      var name := String();
      var perm := Uint32();
      var mode := Uint8();
      var extension := [];
      if unix {
        extension := String();
      }
      m := Tcreate(fid, name, perm, mode, extension);
    }

    method GetRcreate() returns (m: Message)
      requires Untouched()
      modifies this
      ensures m.Rcreate? && Carries(m, [QID, KNum(4)])
    {
      hide ReadsAll;
      var qid := GetQid();
      var iounit := Uint32();
      m := Rcreate(qid, iounit);
    }

    method GetTread() returns (m: Message)
      requires Untouched()
      modifies this
      ensures m.Tread? && Carries(m, [KNum(4), KNum(8), KNum(4)])
    {
      hide ReadsAll;
      var fid := Uint32();
      var offset := Uint64();
      var count := Uint32();
      m := Tread(fid, offset, count);
    }

    method GetTwrite() returns (m: Message)
      requires Untouched()
      modifies this
      ensures m.Twrite? && Carries(m, [KNum(4), KNum(8), KBlob])
    {
      hide ReadsAll;
      var fid := Uint32();
      var offset := Uint64();
      var data := Data();
      m := Twrite(fid, offset, data);
    }

    method GetTwstat() returns (m: Message)
      requires Untouched()
      modifies this
      ensures m.Twstat? && Carries(m, [KNum(4), KGroup(StatKinds(unix))])
    {
      hide ReadsAll;
      var fid := Uint32();
      var stat := GetStat();
      m := Twstat(fid, stat);
    }

    ghost predicate Builds(m: Message, t: uint8)
      reads this
    {
      && Kinds(t, unix).Some? && Carries(m, Kinds(t, unix).value) && TypeOf(m) == t
    }

    /** The body of message type t: what is asked for is its layout, and what came back are the
        fields of the message returned. */
    method UnmarshalBody(t: uint8) returns (m: Message)
      requires Untouched() && Kinds(t, unix).Some?
      modifies this
      ensures Builds(m, t)
    {
      hide ReadsAll;
      if t < 112 {
        m := UnmarshalSession(t);
      } else if t < 118 {
        m := UnmarshalOpen(t);
      } else if t < 123 {
        m := UnmarshalFile(t);
      } else {
        m := UnmarshalStat(t);
      }
    }

    method UnmarshalSession(t: uint8) returns (m: Message)
      requires Untouched() && Kinds(t, unix).Some? && t < 112
      modifies this
      ensures Builds(m, t)
    {
      hide ReadsAll;
      match t {
        case 100 => m := GetTversion();
        case 101 => m := GetRversion();
        case 102 => m := GetTauth();
        case 103 => var qid := GetQid(); m := Rauth(qid);
        case 104 => m := GetTattach();
        case 105 => var qid := GetQid(); m := Rattach(qid);
        case 107 => var ename := String(); m := Rerror(ename);
        case 108 => var oldtag := Uint16(); m := Tflush(oldtag);
        case 109 => m := Rflush;
        case 110 => m := GetTwalk();
        case 111 => var qids := Qids(); m := Rwalk(qids);
      }
    }

    method UnmarshalOpen(t: uint8) returns (m: Message)
      requires Untouched() && Kinds(t, unix).Some? && 112 <= t < 118
      modifies this
      ensures Builds(m, t)
    {
      hide ReadsAll;
      match t {
        case 112 => m := GetTopen();
        case 113 => m := GetRopen();
        case 114 => m := GetTcreate();
        case 115 => m := GetRcreate();
        case 116 => m := GetTread();
        case 117 => var data := Data(); m := Rread(data);
      }
    }

    method UnmarshalFile(t: uint8) returns (m: Message)
      requires Untouched() && Kinds(t, unix).Some? && 118 <= t < 123
      modifies this
      ensures Builds(m, t)
    {
      hide ReadsAll;
      match t {
        case 118 => m := GetTwrite();
        case 119 => var count := Uint32(); m := Rwrite(count);
        case 120 => var fid := Uint32(); m := Tclunk(fid);
        case 121 => m := Rclunk;
        case 122 => var fid := Uint32(); m := Tremove(fid);
      }
    }

    method UnmarshalStat(t: uint8) returns (m: Message)
      requires Untouched() && Kinds(t, unix).Some? && 123 <= t
      modifies this
      ensures Builds(m, t)
    {
      hide ReadsAll;
      match t {
        case 123 => m := Rremove;
        case 124 => var fid := Uint32(); m := Tstat(fid);
        case 125 => var stat := GetStat(); m := Rstat(stat);
        case 126 => m := GetTwstat();
        case 127 => m := Rwstat;
      }
    }
  }

  /** The body of a Stat: every field in turn, and nothing after the last. */
  method StatFromBody(body: bytes, unix: bool) returns (s: Stat, e: Option<Error>)
    ensures PlainPart(s, unix) == s
    ensures match ParseAll(StatKinds(unix), body)
            case Err(x) => e == Some(x)
            case Ok((fs, rest)) =>
              fs == StatFields(s, unix) && e == if rest != [] then Some(TrailingBytes) else None
  {
    var d := new Decoder(body, unix);
    s := StatNumbers(d);
    s := StatStrings(d, s);
    if unix {
      s := StatUnix(d, s);
    }
    assert d.kinds == StatKinds(unix) && d.got == StatFields(s, unix);
    e := d.Done();
  }

  method StatNumbers(d: Decoder) returns (s: Stat)
    requires d.Valid() && d.kinds == [] && d.got == []
    modifies d
    ensures d.Valid() && d.kinds == StatKinds(false)[..7] && d.got == StatFields(s, false)[..7]
    ensures PlainPart(s, false) == s
  {
    hide ReadsAll;
    var stype := d.Uint16();
    var dev := d.Uint32();
    var qid := d.GetQid();
    s := Stat(stype, dev, qid, 0, 0, 0, 0, [], [], [], [], [], 0, 0, 0);
    s := StatTimes(d, s);
  }

  method StatTimes(d: Decoder, s: Stat) returns (r: Stat)
    requires d.Valid() && d.kinds == StatKinds(false)[..3] && d.got == StatFields(s, false)[..3]
    requires PlainPart(s, false) == s
    modifies d
    ensures d.Valid() && d.kinds == StatKinds(false)[..7] && d.got == StatFields(r, false)[..7]
    ensures PlainPart(r, false) == r
  {
    hide ReadsAll;
    var mode := d.Uint32();
    var atime := d.Uint32();
    var mtime := d.Uint32();
    var length := d.Uint64();
    r := s.(mode := mode, atime := atime, mtime := mtime, length := length);
  }

  method StatStrings(d: Decoder, s: Stat) returns (r: Stat)
    requires d.Valid() && d.kinds == StatKinds(false)[..7] && d.got == StatFields(s, false)[..7]
    requires PlainPart(s, false) == s
    modifies d
    ensures d.Valid() && d.kinds == StatKinds(false) && d.got == StatFields(r, false)
    ensures PlainPart(r, false) == r
  {
    hide ReadsAll;
    var name := d.String();
    var uid := d.String();
    var gid := d.String();
    var muid := d.String();
    r := s.(name := name, uid := uid, gid := gid, muid := muid);
  }

  method StatUnix(d: Decoder, s: Stat) returns (r: Stat)
    requires d.Valid() && d.kinds == StatKinds(false) && d.got == StatFields(s, false)
    modifies d
    ensures d.Valid() && d.kinds == StatKinds(true) && d.got == StatFields(r, true)
  {
    hide ReadsAll;
    var extension := d.String();
    var nuid := d.Uint32();
    var ngid := d.Uint32();
    var nmuid := d.Uint32();
    r := s.(extension := extension, nuid := nuid, ngid := ngid, nmuid := nmuid);
  }

  /** newMessage knows exactly the types that have a layout. */
  method KnownType(t: uint8) returns (known: bool)
    ensures known <==> Kinds(t, false).Some?
    ensures known <==> Kinds(t, true).Some?
  {
    known := 100 <= t <= 127 && t != 106;
  }

  method UnmarshalVersion(raw: bytes, unix: bool) returns (r: Result<(uint16, Message)>)
    ensures r == DecodeFrame(raw, unix)
  {
    if |raw| < MIN_FRAME {
      return Err(Truncated);
    }
    var size := FromLittleEndian(raw[..4]);
    if size != |raw| {
      return Err(Truncated);
    }
    EncodeDecodeInt(raw[5..7]);
    SpanOfWidths();
    var t, tag: uint16 := raw[4], FromLittleEndian(raw[5..7]);
    var known := KnownType(t);
    if !known {
      return Err(UnknownType);
    }
    var d := new Decoder(raw[7..], unix);
    var m := d.UnmarshalBody(t);
    var e := d.Done();
    if e.Some? {
      return Err(e.value);
    }
    EncodeParseAll(d.kinds, raw[7..]);
    BuildFields(m, unix);
    return Ok((tag, m));
  }

  /** One Stat with its size prefix, and nothing after it. */
  function DecodeStat(raw: bytes, unix: bool): Result<Stat>
  {
    var (f, rest) :- Parse(KGroup(StatKinds(unix)), raw);
    if rest != [] then Err(TrailingBytes) else
    EncodeParse(KGroup(StatKinds(unix)), raw);
    Ok(ToStat(f, unix))
  }

  method UnmarshalStatVersion(raw: bytes, unix: bool) returns (r: Result<Stat>)
    ensures r == DecodeStat(raw, unix)
  {
    var d := new Decoder(raw, unix);
    var s := d.GetStat();
    var e := d.Done();
    if e.Some? {
      return Err(e.value);
    }
    EncodeParse(KGroup(StatKinds(unix)), raw);
    StatRoundTrip(s, unix);
    return Ok(s);
  }
}
