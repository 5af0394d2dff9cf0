/** The codec is a bijection between well-formed messages and accepted frames. */
module RoundTrip {
  import opened Bytes
  import opened Layout
  import opened Messages

  // ----- messages and their fields -----

  lemma QidRoundTrip(q: Qid)
    ensures Has(QID, QidField(q)) && ToQid(QidField(q)) == q
  {
    SpanOfWidths();
    var f := QidField(q);
    assert forall i :: 0 <= i < |f.fs| ==> Matches(QID.ks[i], f.fs[i]);
    assert MatchesAll(QID.ks, f.fs) && FitsAll(f.fs);
  }

  lemma {:induction false} QidInverse(f: Field)
    requires Has(QID, f)
    ensures QidField(ToQid(f)) == f
  {
    Parts(QID, f);
    assert f.fs == [f.fs[0], f.fs[1], f.fs[2]];
  }

  lemma NamesMatch(names: seq<bytes>)
    ensures Matches(KList(KText), List(TextFields(names)))
    ensures Fits(List(TextFields(names))) <==>
            |names| <= MAX_WALK_ELEMENTS && forall i :: 0 <= i < |names| ==> |names[i]| <= MAX_TEXT
    ensures Fits(List(TextFields(names))) ==> ToNames(List(TextFields(names))) == names
  {
    var fs := TextFields(names);
    assert forall i :: 0 <= i < |names| ==> fs[i].s == names[i];
    assert FitsAll(fs) <==> forall i :: 0 <= i < |fs| ==> |fs[i].s| <= MAX_TEXT;
  }

  lemma QidsMatch(qids: seq<Qid>)
    ensures Matches(KList(QID), List(QidFields(qids)))
    ensures Fits(List(QidFields(qids))) <==> |qids| <= MAX_WALK_ELEMENTS
    ensures Fits(List(QidFields(qids))) ==> ToQids(List(QidFields(qids))) == qids
  {
    var fs := QidFields(qids);
    forall i | 0 <= i < |fs|
      ensures Has(QID, fs[i]) && ToQid(fs[i]) == qids[i]
    {
      QidRoundTrip(qids[i]);
    }
    assert FitsAll(fs);
  }

  /** One more field makes the body that much longer. */
  lemma Grow(fs: seq<Field>, i: nat)
    requires i < |fs|
    ensures |EncodeAll(fs[..i + 1])| == |EncodeAll(fs[..i])| + |Encode(fs[i])|
  {
    assert fs[..i + 1] == fs[..i] + [fs[i]];
    Append(fs[..i], fs[i], []);
  }

  lemma QidSize(q: Qid)
    ensures |Encode(QidField(q))| == 13
  {
    var fs := QidField(q).fs;
    Grow(fs, 0);
    Grow(fs, 1);
    Grow(fs, 2);
    assert fs[..3] == fs;
  }

  lemma StatHeadSize(s: Stat)
    ensures |EncodeAll(StatFields(s, false)[..7])| == 39
  {
    var fs := StatFields(s, false);
    QidSize(s.qid);
    Grow(fs, 0);
    Grow(fs, 1);
    Grow(fs, 2);
    assert |EncodeAll(fs[..3])| == 19;
    Grow(fs, 3);
    Grow(fs, 4);
    Grow(fs, 5);
    Grow(fs, 6);
  }

  /** The length of a Stat body, when no string is cut. */
  lemma PlainStatSize(s: Stat)
    requires |s.name| <= MAX_TEXT && |s.uid| <= MAX_TEXT && |s.gid| <= MAX_TEXT && |s.muid| <= MAX_TEXT
    ensures |EncodeAll(StatFields(s, false))| == 47 + |s.name| + |s.uid| + |s.gid| + |s.muid|
  {
    var fs := StatFields(s, false);
    StatHeadSize(s);
    Grow(fs, 7);
    Grow(fs, 8);
    Grow(fs, 9);
    Grow(fs, 10);
    assert fs[..11] == fs;
  }

  lemma UnixStatSize(s: Stat)
    requires |s.name| <= MAX_TEXT && |s.uid| <= MAX_TEXT && |s.gid| <= MAX_TEXT && |s.muid| <= MAX_TEXT
    requires |s.extension| <= MAX_TEXT
    ensures |EncodeAll(StatFields(s, true))|
         == 61 + |s.name| + |s.uid| + |s.gid| + |s.muid| + |s.extension|
  {
    PlainStatSize(s);
    var plain, ext := StatFields(s, false), Text(s.extension);
    var tail := [Num(4, s.nuid), Num(4, s.ngid), Num(4, s.nmuid)];
    Append(plain, ext, []);
    Append(plain + [ext], tail[0], []);
    Append(plain + [ext] + [tail[0]], tail[1], []);
    Append(plain + [ext] + [tail[0]] + [tail[1]], tail[2], []);
    assert StatFields(s, true) == plain + [ext] + [tail[0]] + [tail[1]] + [tail[2]];
  }

  lemma StatSizeBound(s: Stat, unix: bool)
    requires StatFits(s, unix)
    ensures |EncodeAll(StatFields(s, unix))| <= 0xFFFF
    ensures |EncodeAll(StatFields(s, unix))| ==
            if unix then 61 + |s.name| + |s.uid| + |s.gid| + |s.muid| + |s.extension|
            else 47 + |s.name| + |s.uid| + |s.gid| + |s.muid|
  {
    if unix { UnixStatSize(s); } else { PlainStatSize(s); }
  }

  /** What of a Stat reaches the other side. */
  function PlainPart(s: Stat, unix: bool): Stat
  {
    if unix then s else s.(extension := [], nuid := 0, ngid := 0, nmuid := 0)
  }

  lemma StatMatches(s: Stat, unix: bool)
    ensures Matches(KGroup(StatKinds(unix)), Group(StatFields(s, unix)))
  {
    QidRoundTrip(s.qid);
    var ks, fs := StatKinds(unix), StatFields(s, unix);
    assert |ks| == |fs|;
    forall i | 0 <= i < |ks|
      ensures Matches(ks[i], fs[i])
    {
      assert i < 8 || (8 <= i < 15);
    }
  }

  /** Which Stats fit the wire, before the loss of .u fields is considered. */
  lemma StatFitsFields(s: Stat, unix: bool)
    ensures Fits(Group(StatFields(s, unix))) <==> StatFits(PlainPart(s, unix), unix)
  {
    SpanOfWidths();
    QidRoundTrip(s.qid);
    var fs := StatFields(s, unix);
    if FitsAll(fs) {
      assert Fits(fs[7]) && Fits(fs[8]) && Fits(fs[9]) && Fits(fs[10]);
      if unix {
        assert Fits(fs[11]);
        UnixStatSize(s);
      } else {
        PlainStatSize(s);
      }
    } else {
      var i :| 0 <= i < |fs| && !Fits(fs[i]);
      assert i in {7, 8, 9, 10, 11};
    }
  }

  lemma StatRoundTrip(s: Stat, unix: bool)
    requires Fits(Group(StatFields(s, unix)))
    ensures Matches(KGroup(StatKinds(unix)), Group(StatFields(s, unix)))
    ensures ToStat(Group(StatFields(s, unix)), unix) == PlainPart(s, unix)
  {
    StatMatches(s, unix);
    QidRoundTrip(s.qid);
  }

  lemma {:induction false} StatInverse(f: Field, unix: bool)
    requires Has(KGroup(StatKinds(unix)), f)
    ensures Group(StatFields(ToStat(f, unix), unix)) == f
    ensures StatFits(ToStat(f, unix), unix) && PlainPart(ToStat(f, unix), unix) == ToStat(f, unix)
  {
    StatParts(f, unix);
    var fs, s := f.fs, ToStat(f, unix);
    QidInverse(fs[2]);
    var head := [Num(2, s.stype), Num(4, s.dev), QidField(s.qid), Num(4, s.mode), Num(4, s.atime), Num(4, s.mtime),
                 Num(8, s.length), Text(s.name), Text(s.uid), Text(s.gid), Text(s.muid)];
    assert fs[..11] == head;
    if unix {
      assert fs[11..] == [Text(s.extension), Num(4, s.nuid), Num(4, s.ngid), Num(4, s.nmuid)];
    }
    assert StatFields(s, unix) == fs[..11] + fs[11..] == fs;
    StatFitsFields(s, unix);
  }

  // ----- whole messages -----

  /** What of a message reaches the other side. */
  function Delivered(m: Message, unix: bool): Message
  {
    match m
    case Tcreate(_, _, _, _, _) => if unix then m else m.(extension := [])
    case Rstat(stat) => Rstat(PlainPart(stat, unix))
    case Twstat(fid, stat) => Twstat(fid, PlainPart(stat, unix))
    case _ => m
  }

  ghost predicate FollowsLayout(m: Message, unix: bool)
  {
    Kinds(TypeOf(m), unix).Some? && MatchesAll(Kinds(TypeOf(m), unix).value, Fields(m, unix))
  }

  lemma SessionMatches(m: Message, unix: bool)
    requires TypeOf(m) < 110
    ensures FollowsLayout(m, unix)
  {
    match m {
      case Rauth(qid) => QidRoundTrip(qid);
      case Rattach(qid) => QidRoundTrip(qid);
      case _ =>
    }
  }

  lemma OpenMatches(m: Message, unix: bool)
    requires 110 <= TypeOf(m) < 116
    ensures FollowsLayout(m, unix)
  {
    match m {
      case Twalk(_, _, names) => NamesMatch(names);
      case Rwalk(qids) => QidsMatch(qids);
      case Ropen(qid, _) => QidRoundTrip(qid);
      case Rcreate(qid, _) => QidRoundTrip(qid);
      case _ =>
    }
  }

  lemma FileMatches(m: Message, unix: bool)
    requires 116 <= TypeOf(m)
    ensures FollowsLayout(m, unix)
  {
    match m {
      case Rstat(stat) => StatMatches(stat, unix);
      case Twstat(_, stat) => StatMatches(stat, unix);
      case _ =>
    }
  }

  lemma MessageMatches(m: Message, unix: bool)
    ensures FollowsLayout(m, unix)
  {
    if TypeOf(m) < 110 {
      SessionMatches(m, unix);
    } else if TypeOf(m) < 116 {
      OpenMatches(m, unix);
    } else {
      FileMatches(m, unix);
    }
  }

  lemma DataFits(m: Message, unix: bool)
    requires m.Rread? || m.Twrite?
    ensures FitsAll(Fields(m, unix)) <==> |m.data| < 0x1_0000_0000
    ensures |EncodeAll(Fields(m, unix))| == |m.data| + if m.Rread? then 4 else 16
  {
    SpanOfWidths();
    var fs := Fields(m, unix);
    if m.Rread? {
      Grow(fs, 0);
      assert fs[..1] == fs;
      assert Fits(fs[0]) <==> |m.data| < 0x1_0000_0000;
    } else {
      Grow(fs, 0);
      Grow(fs, 1);
      Grow(fs, 2);
      assert fs[..3] == fs;
      assert Fits(fs[2]) <==> |m.data| < 0x1_0000_0000;
    }
  }

  /** A message fits the wire and loses nothing on it exactly when it is well formed, data
      messages needing room for their header besides. */
  ghost predicate FitsAsStated(m: Message, unix: bool)
  {
    && (WellFormed(m, unix) ==> FitsAll(Fields(m, unix)) && Delivered(m, unix) == m)
    && (FitsAll(Fields(m, unix)) && Delivered(m, unix) == m && !m.Rread? && !m.Twrite? ==> WellFormed(m, unix))
  }

  lemma MessageFits(m: Message, unix: bool)
    ensures FitsAsStated(m, unix)
  {
    if TypeOf(m) < 110 {
      SessionFits(m, unix);
    } else if TypeOf(m) < 116 {
      OpenFits(m, unix);
    } else {
      FileFits(m, unix);
    }
  }

  lemma SessionFits(m: Message, unix: bool)
    requires TypeOf(m) < 110
    ensures FitsAsStated(m, unix)
  {
    SpanOfWidths();
    var fs := Fields(m, unix);
    match m {
      case Rauth(qid) => QidRoundTrip(qid);
      case Rattach(qid) => QidRoundTrip(qid);
      case Tauth(_, _, _) => assert FitsAll(fs) ==> Fits(fs[1]) && Fits(fs[2]);
      case Tattach(_, _, _, _) => assert FitsAll(fs) ==> Fits(fs[2]) && Fits(fs[3]);
      case Tversion(_, _) => assert FitsAll(fs) ==> Fits(fs[1]);
      case Rversion(_, _) => assert FitsAll(fs) ==> Fits(fs[1]);
      case Rerror(_) => assert FitsAll(fs) ==> Fits(fs[0]);
      case _ =>
    }
  }

  lemma OpenFits(m: Message, unix: bool)
    requires 110 <= TypeOf(m) < 116
    ensures FitsAsStated(m, unix)
  {
    SpanOfWidths();
    var fs := Fields(m, unix);
    match m {
      case Twalk(_, _, names) =>
        NamesMatch(names);
        assert FitsAll(fs) ==> Fits(fs[2]);
      case Rwalk(qids) =>
        QidsMatch(qids);
        assert FitsAll(fs) ==> Fits(fs[0]);
      case Ropen(qid, _) => QidRoundTrip(qid);
      case Rcreate(qid, _) => QidRoundTrip(qid);
      case Topen(_, _) => assert FitsAll(fs) ==> Fits(fs[1]);
      case Tcreate(_, _, _, _, _) =>
        assert FitsAll(fs) ==> Fits(fs[1]) && Fits(fs[3]) && (unix ==> Fits(fs[4]));
    }
  }

  lemma FileFits(m: Message, unix: bool)
    requires 116 <= TypeOf(m)
    ensures FitsAsStated(m, unix)
  {
    SpanOfWidths();
    var fs := Fields(m, unix);
    match m {
      case Rread(_) => DataFits(m, unix);
      case Twrite(_, _, _) => DataFits(m, unix);
      case Rstat(stat) =>
        StatFitsFields(stat, unix);
        assert FitsAll(fs) ==> Fits(fs[0]);
      case Twstat(_, stat) =>
        StatFitsFields(stat, unix);
        assert FitsAll(fs) ==> Fits(fs[1]);
      case _ =>
    }
  }

  ghost predicate BuiltBack(m: Message, unix: bool)
    requires FollowsLayout(m, unix) && FitsAll(Fields(m, unix))
  {
    Build(TypeOf(m), Fields(m, unix), unix) == Delivered(m, unix)
  }

  lemma BuildFields(m: Message, unix: bool)
    requires FitsAll(Fields(m, unix))
    ensures FollowsLayout(m, unix) && BuiltBack(m, unix)
  {
    MessageMatches(m, unix);
    if TypeOf(m) < 110 {
      BuildSession(m, unix);
    } else if TypeOf(m) < 116 {
      BuildOpen(m, unix);
    } else if TypeOf(m) < 125 {
      BuildFile(m, unix);
    } else {
      BuildStat(m, unix);
    }
  }

  lemma BuildSession(m: Message, unix: bool)
    requires TypeOf(m) < 110 && FollowsLayout(m, unix) && FitsAll(Fields(m, unix))
    ensures BuiltBack(m, unix)
  {
    match m {
      case Rauth(qid) => QidRoundTrip(qid);
      case Rattach(qid) => QidRoundTrip(qid);
      case _ =>
    }
  }

  lemma BuildOpen(m: Message, unix: bool)
    requires 110 <= TypeOf(m) < 116 && FollowsLayout(m, unix) && FitsAll(Fields(m, unix))
    ensures BuiltBack(m, unix)
  {
    if TypeOf(m) < 112 {
      BuildWalk(m, unix);
    } else {
      match m {
        case Ropen(qid, _) => QidRoundTrip(qid);
        case Rcreate(qid, _) => QidRoundTrip(qid);
        case _ =>
      }
    }
  }

  lemma BuildWalk(m: Message, unix: bool)
    requires 110 <= TypeOf(m) < 112 && FollowsLayout(m, unix) && FitsAll(Fields(m, unix))
    ensures BuiltBack(m, unix)
  {
    var fs := Fields(m, unix);
    match m {
      case Twalk(_, _, names) =>
        NamesMatch(names);
        assert Fits(fs[2]);
      case Rwalk(qids) =>
        QidsMatch(qids);
        assert Fits(fs[0]);
    }
  }

  lemma BuildFile(m: Message, unix: bool)
    requires 116 <= TypeOf(m) < 125 && FollowsLayout(m, unix) && FitsAll(Fields(m, unix))
    ensures BuiltBack(m, unix)
  {
  }

  lemma BuildStat(m: Message, unix: bool)
    requires 125 <= TypeOf(m) && FollowsLayout(m, unix) && FitsAll(Fields(m, unix))
    ensures BuiltBack(m, unix)
  {
    var fs := Fields(m, unix);
    match m {
      case Rstat(stat) =>
        assert Fits(fs[0]);
        StatRoundTrip(stat, unix);
      case Twstat(_, stat) =>
        assert Fits(fs[1]);
        StatRoundTrip(stat, unix);
      case Rwstat =>
    }
  }

  ghost predicate FieldsOf(t: uint8, fs: seq<Field>, unix: bool)
  {
    Kinds(t, unix).Some? && MatchesAll(Kinds(t, unix).value, fs) && FitsAll(fs)
  }

  ghost predicate RebuiltFrom(t: uint8, fs: seq<Field>, unix: bool)
    requires FieldsOf(t, fs, unix)
  {
    var m := Build(t, fs, unix);
    TypeOf(m) == t && Fields(m, unix) == fs && Delivered(m, unix) == m
  }

  lemma {:induction false} FieldsBuild(t: uint8, fs: seq<Field>, unix: bool)
    requires FieldsOf(t, fs, unix)
    ensures RebuiltFrom(t, fs, unix)
  {
    if t < 104 {
      FieldsBuildAuth(t, fs, unix);
    } else if t < 110 {
      FieldsBuildSession(t, fs, unix);
    } else if t < 116 {
      FieldsBuildOpen(t, fs, unix);
    } else if t < 120 {
      FieldsBuildFile(t, fs, unix);
    } else if t < 125 {
      FieldsBuildFid(t, fs, unix);
    } else {
      FieldsBuildStat(t, fs, unix);
    }
  }

  lemma {:induction false} FieldsBuildAuth(t: uint8, fs: seq<Field>, unix: bool)
    requires t < 104 && FieldsOf(t, fs, unix)
    ensures RebuiltFrom(t, fs, unix)
  {
    var ks := Kinds(t, unix).value;
    assert forall i :: 0 <= i < |fs| ==> Has(ks[i], fs[i]);
    if t == 103 {
      QidInverse(fs[0]);
    }
    assert Fields(Build(t, fs, unix), unix) == fs;
  }

  lemma {:induction false} FieldsBuildSession(t: uint8, fs: seq<Field>, unix: bool)
    requires 104 <= t < 110 && FieldsOf(t, fs, unix)
    ensures RebuiltFrom(t, fs, unix)
  {
    var ks := Kinds(t, unix).value;
    assert forall i :: 0 <= i < |fs| ==> Has(ks[i], fs[i]);
    if t == 105 {
      QidInverse(fs[0]);
    }
    assert Fields(Build(t, fs, unix), unix) == fs;
  }

  lemma {:induction false} FieldsBuildOpen(t: uint8, fs: seq<Field>, unix: bool)
    requires 110 <= t < 116 && FieldsOf(t, fs, unix)
    ensures RebuiltFrom(t, fs, unix)
  {
    var ks := Kinds(t, unix).value;
    assert Has(ks[0], fs[0]);
    if t == 110 {
      assert Has(ks[1], fs[1]) && Has(ks[2], fs[2]);
      Parts(KList(KText), fs[2]);
      assert TextFields(ToNames(fs[2])) == fs[2].items;
      assert fs == [fs[0], fs[1], fs[2]];
    } else if t == 111 {
      QidsInverse(fs[0]);
      assert fs == [fs[0]];
    } else if t == 114 {
      FieldsBuildCreate(fs, unix);
    } else {
      assert Has(ks[1], fs[1]);
      if t != 112 {
        QidInverse(fs[0]);
      }
      assert fs == [fs[0], fs[1]];
    }
  }

  lemma {:induction false} FieldsBuildCreate(fs: seq<Field>, unix: bool)
    requires FieldsOf(114, fs, unix)
    ensures RebuiltFrom(114, fs, unix)
  {
    var ks := Kinds(114, unix).value;
    assert Has(ks[0], fs[0]) && Has(ks[1], fs[1]) && Has(ks[2], fs[2]) && Has(ks[3], fs[3]);
    assert unix ==> Has(ks[4], fs[4]);
    assert fs == [fs[0], fs[1], fs[2], fs[3]] + fs[4..];
  }

  lemma {:induction false} FieldsBuildFile(t: uint8, fs: seq<Field>, unix: bool)
    requires 116 <= t < 120 && FieldsOf(t, fs, unix)
    ensures RebuiltFrom(t, fs, unix)
  {
    var ks := Kinds(t, unix).value;
    if |fs| > 0 {
      assert Has(ks[0], fs[0]);
    }
    if |fs| == 1 {
      assert fs == [fs[0]];
    } else if |fs| == 3 {
      assert Has(ks[1], fs[1]) && Has(ks[2], fs[2]);
      assert fs == [fs[0], fs[1], fs[2]];
    }
  }

  lemma {:induction false} FieldsBuildFid(t: uint8, fs: seq<Field>, unix: bool)
    requires 120 <= t < 125 && FieldsOf(t, fs, unix)
    ensures RebuiltFrom(t, fs, unix)
  {
    var ks := Kinds(t, unix).value;
    if |fs| > 0 {
      assert Has(ks[0], fs[0]);
    }
    if |fs| == 1 {
      assert fs == [fs[0]];
    }
  }

  lemma {:induction false} FieldsBuildStat(t: uint8, fs: seq<Field>, unix: bool)
    requires 125 <= t && FieldsOf(t, fs, unix)
    ensures RebuiltFrom(t, fs, unix)
  {
    if t == 125 {
      FieldsBuildRstat(fs, unix);
    } else if t == 126 {
      FieldsBuildTwstat(fs, unix);
    }
  }

  lemma {:induction false} FieldsBuildRstat(fs: seq<Field>, unix: bool)
    requires FieldsOf(125, fs, unix)
    ensures RebuiltFrom(125, fs, unix)
  {
    hide StatKinds, StatFields, StatFits, ToStat, PlainPart, Encode, EncodeAll;
    var k := KGroup(StatKinds(unix));
    assert Kinds(125, unix).value == [k];
    assert Matches([k][0], fs[0]) && Fits(fs[0]);
    StatInverse(fs[0], unix);
    var s := ToStat(fs[0], unix);
    assert Build(125, fs, unix) == Rstat(s);
    assert fs == [Group(StatFields(s, unix))];
  }

  lemma {:induction false} FieldsBuildTwstat(fs: seq<Field>, unix: bool)
    requires FieldsOf(126, fs, unix)
    ensures RebuiltFrom(126, fs, unix)
  {
    hide StatKinds, StatFields, StatFits, ToStat, PlainPart, Encode, EncodeAll;
    var k := KGroup(StatKinds(unix));
    assert Kinds(126, unix).value == [KNum(4), k];
    assert Matches([KNum(4), k][0], fs[0]) && Fits(fs[0]);
    assert Matches([KNum(4), k][1], fs[1]) && Fits(fs[1]);
    StatInverse(fs[1], unix);
    var s := ToStat(fs[1], unix);
    assert Build(126, fs, unix) == Twstat(ToUint32(fs[0]), s);
    assert fs == [Num(4, fs[0].val), Group(StatFields(s, unix))];
  }

  lemma {:induction false} QidsInverse(f: Field)
    requires Has(KList(QID), f)
    ensures List(QidFields(ToQids(f))) == f
  {
    Parts(KList(QID), f);
    var gs := QidFields(ToQids(f));
    forall i | 0 <= i < |f.items|
      ensures gs[i] == f.items[i]
    {
      QidInverse(f.items[i]);
    }
    assert gs == f.items;
  }

  // ----- whole frames -----

  lemma FrameParts(tag: uint16, m: Message, unix: bool)
    ensures var raw, body := Frame(tag, m, unix), EncodeAll(Fields(m, unix));
            && |raw| == MIN_FRAME + |body|
            && raw[..4] == LittleEndian(|raw|, 4) && raw[4] == TypeOf(m)
            && raw[5..7] == LittleEndian(tag, 2) && raw[7..] == body
  {
  }

  /** Every well-formed message, plain or .u, decodes back to itself. */
  lemma DecodeAfterEncode(tag: uint16, m: Message, unix: bool)
    requires WellFormed(m, unix)
    ensures DecodeFrame(Frame(tag, m, unix), unix) == Ok((tag, m))
  {
    SpanOfWidths();
    MessageFits(m, unix);
    BuildFields(m, unix);
    var raw, fs := Frame(tag, m, unix), Fields(m, unix);
    FrameParts(tag, m, unix);
    FrameSize(tag, m, unix);
    DecodeEncodeInt(|raw|, 4);
    DecodeEncodeInt(tag, 2);
    ParseEncodeAll(Kinds(TypeOf(m), unix).value, fs, []);
    assert EncodeAll(fs) + [] == EncodeAll(fs);
  }

  lemma BodyInverse(t: uint8, b: bytes, unix: bool)
    requires DecodeBody(t, b, unix).Ok?
    ensures var m := DecodeBody(t, b, unix).value;
            && TypeOf(m) == t && EncodeAll(Fields(m, unix)) == b
            && FitsAll(Fields(m, unix)) && Delivered(m, unix) == m
  {
    var ks := Kinds(t, unix).value;
    var (fs, rest) := ParseAll(ks, b).value;
    EncodeParseAll(ks, b);
    FieldsBuild(t, fs, unix);
    assert EncodeAll(fs) + [] == EncodeAll(fs);
  }

  lemma HeaderInverse(raw: bytes)
    requires |raw| >= MIN_FRAME && FromLittleEndian(raw[..4]) == |raw|
    ensures |raw| < 0x1_0000_0000
    ensures FromLittleEndian(raw[5..7]) < 0x1_0000
    ensures raw == Header(|raw|, raw[4], FromLittleEndian(raw[5..7])) + raw[7..]
  {
    SpanOfWidths();
    EncodeDecodeInt(raw[..4]);
    EncodeDecodeInt(raw[5..7]);
    assert raw == raw[..4] + [raw[4]] + raw[5..7] + raw[7..];
  }

  lemma DataIsShort(m: Message, unix: bool)
    requires FitsAll(Fields(m, unix)) && Delivered(m, unix) == m
    requires MIN_FRAME + |EncodeAll(Fields(m, unix))| < 0x1_0000_0000
    ensures WellFormed(m, unix)
  {
    MessageFits(m, unix);
    if m.Rread? || m.Twrite? {
      DataFits(m, unix);
    }
  }

  /** Every accepted frame is the encoding of the message it decodes to, which is well formed. */
  lemma EncodeAfterDecode(raw: bytes, unix: bool)
    requires DecodeFrame(raw, unix).Ok?
    ensures var (tag, m) := DecodeFrame(raw, unix).value;
            WellFormed(m, unix) && Frame(tag, m, unix) == raw
  {
    var (tag, m) := DecodeFrame(raw, unix).value;
    BodyInverse(raw[4], raw[7..], unix);
    HeaderInverse(raw);
    DataIsShort(m, unix);
  }

  /** A message survives the wire exactly when it is well formed. */
  lemma SurvivesIffWellFormed(tag: uint16, m: Message, unix: bool)
    ensures DecodeFrame(Frame(tag, m, unix), unix) == Ok((tag, m)) <==> WellFormed(m, unix)
  {
    if WellFormed(m, unix) {
      DecodeAfterEncode(tag, m, unix);
    } else if DecodeFrame(Frame(tag, m, unix), unix) == Ok((tag, m)) {
      EncodeAfterDecode(Frame(tag, m, unix), unix);
    }
  }

  // ----- the size prefix never overflows -----

  lemma {:induction false} SizeBound(fs: seq<Field>, most: nat)
    requires forall i :: 0 <= i < |fs| ==> |Encode(fs[i])| <= most
    ensures |EncodeAll(fs)| <= |fs| * most
  {
    if fs != [] {
      SizeBound(fs[..|fs| - 1], most);
      assert |fs| * most == (|fs| - 1) * most + most;
    }
  }

  const FIELD_BOUND: nat := 0x20_0000

  lemma FieldSize(m: Message, unix: bool, i: nat)
    requires FollowsLayout(m, unix) && FitsAll(Fields(m, unix)) && !m.Rread? && !m.Twrite?
    requires i < |Fields(m, unix)|
    ensures |Encode(Fields(m, unix)[i])| <= FIELD_BOUND
  {
    var k, f := Kinds(TypeOf(m), unix).value[i], Fields(m, unix)[i];
    assert Has(k, f);
    match f {
      case Row(_) => QidSize(ToQid(f)); QidInverse(f);
      case List(items) =>
        Parts(k, f);
        forall j | 0 <= j < |items|
          ensures |Encode(items[j])| <= 0x1_0001
        {
          if k == KList(QID) {
            QidSize(ToQid(items[j]));
            QidInverse(items[j]);
          }
        }
        SizeBound(items, 0x1_0001);
      case _ =>
    }
  }

  /** The size of a well-formed message's frame fits the 32-bit size prefix. */
  lemma FrameSize(tag: uint16, m: Message, unix: bool)
    requires WellFormed(m, unix)
    ensures |Frame(tag, m, unix)| < 0x1_0000_0000
  {
    MessageFits(m, unix);
    MessageMatches(m, unix);
    if m.Rread? || m.Twrite? {
      DataFits(m, unix);
    } else {
      var fs := Fields(m, unix);
      forall i | 0 <= i < |fs|
        ensures |Encode(fs[i])| <= FIELD_BOUND
      {
        FieldSize(m, unix, i);
      }
      SizeBound(fs, FIELD_BOUND);
      assert |fs| <= 5;
    }
  }
}
