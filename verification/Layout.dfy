/** The wire format as data: what a 9P2000 message body is, field by field.

    A layout is a sequence of kinds; a body is a sequence of fields of those kinds. The
    encoder and the decoder of the source (modules Encoding and Decoding) are proved to follow it, and the
    two directions of the round trip are proved here once for every layout. */
module Layout {
  import opened Bytes

  const MAX_TEXT: nat := 0xFFFF
  const MAX_WALK_ELEMENTS: nat := 16

  datatype Kind =
    | KNum(width: nat)
    | KText
    | KBlob
    | KRow(ks: seq<Kind>)
    | KGroup(ks: seq<Kind>)
    | KList(k: Kind)

  datatype Field =
    | Num(width: nat, val: nat)
    | Text(s: bytes)                  // 16-bit length, then the bytes
    | Blob(data: bytes)               // 32-bit length, then the bytes
    | Row(fs: seq<Field>)             // the fields, with no prefix (a Qid)
    | Group(fs: seq<Field>)           // 16-bit length, then the fields (a Stat)
    | List(items: seq<Field>)         // 16-bit count, then the items (names or qids of a walk)

  predicate Matches(k: Kind, f: Field)
    decreases k, 0
  {
    match f
    case Num(w, _) => k == KNum(w)
    case Text(_) => k == KText
    case Blob(_) => k == KBlob
    case Row(fs) => k.KRow? && MatchesAll(k.ks, fs)
    case Group(fs) => k.KGroup? && MatchesAll(k.ks, fs)
    case List(items) => k.KList? && forall i :: 0 <= i < |items| ==> Matches(k.k, items[i])
  }

  predicate MatchesAll(ks: seq<Kind>, fs: seq<Field>)
    decreases ks
  {
    |ks| == |fs| && forall i :: 0 <= i < |ks| ==> Matches(ks[i], fs[i])
  }

  function Cut(s: bytes): bytes
  {
    if |s| > MAX_TEXT then s[..MAX_TEXT] else s
  }

  function Encode(f: Field): bytes
    decreases f, 0
  {
    match f
    case Num(w, v) => LittleEndian(v, w)
    case Text(s) => LittleEndian(|Cut(s)|, 2) + Cut(s)
    case Blob(d) => LittleEndian(|d|, 4) + d
    case Row(fs) => EncodeAll(fs)
    case Group(fs) => var body := EncodeAll(fs); LittleEndian(|body|, 2) + body
    case List(items) => LittleEndian(|items|, 2) + EncodeAll(items)
  }

  function EncodeAll(fs: seq<Field>): bytes
    decreases fs, 1
  {
    if fs == [] then [] else EncodeAll(fs[..|fs| - 1]) + Encode(fs[|fs| - 1])
  }

  /** The range limits of the wire. */
  predicate Fits(f: Field)
    decreases f, 0
  {
    match f
    case Num(w, v) => v < Span(w)
    case Text(s) => |s| <= MAX_TEXT
    case Blob(d) => |d| < 0x1_0000_0000
    case Row(fs) => FitsAll(fs)
    case Group(fs) => FitsAll(fs) && |EncodeAll(fs)| <= 0xFFFF
    case List(items) => FitsAll(items) && |items| <= MAX_WALK_ELEMENTS
  }

  predicate FitsAll(fs: seq<Field>)
    decreases fs, 1
  {
    forall i :: 0 <= i < |fs| ==> Fits(fs[i])
  }

  function Take(b: bytes, n: nat): Result<(bytes, bytes)>
  {
    if n <= |b| then Ok((b[..n], b[n..])) else Err(Truncated)
  }

  function ParseNum(width: nat, b: bytes): Result<(nat, bytes)>
  {
    var (p, rest) :- Take(b, width);
    Ok((FromLittleEndian(p), rest))
  }

  function Parse(k: Kind, b: bytes): Result<(Field, bytes)>
    decreases k, 0, 0
  {
    match k
    case KNum(w) =>
      var (v, rest) :- ParseNum(w, b);
      Ok((Num(w, v), rest))
    case KText =>
      var (n, b1) :- ParseNum(2, b);
      var (s, rest) :- Take(b1, n);
      Ok((Text(s), rest))
    case KBlob =>
      var (n, b1) :- ParseNum(4, b);
      var (d, rest) :- Take(b1, n);
      Ok((Blob(d), rest))
    case KRow(ks) =>
      var (fs, rest) :- ParseAll(ks, b);
      Ok((Row(fs), rest))
    case KGroup(ks) =>
      var (n, b1) :- ParseNum(2, b);
      var (body, rest) :- Take(b1, n);
      var (fs, extra) :- ParseAll(ks, body);
      if extra != [] then Err(TrailingBytes) else Ok((Group(fs), rest))
    case KList(item) =>
      var (n, b1) :- ParseNum(2, b);
      if n > MAX_WALK_ELEMENTS then Err(TooManyElements) else
      var (items, rest) :- ParseItems(item, n, b1);
      Ok((List(items), rest))
  }

  function ParseAll(ks: seq<Kind>, b: bytes): (r: Result<(seq<Field>, bytes)>)
    decreases ks, 0, 0
  {
    if ks == [] then Ok(([], b)) else
    var (fs, b1) :- ParseAll(ks[..|ks| - 1], b);
    var (f, rest) :- Parse(ks[|ks| - 1], b1);
    Ok((fs + [f], rest))
  }

  function ParseItems(k: Kind, n: nat, b: bytes): (r: Result<(seq<Field>, bytes)>)
    decreases k, 1, n
  {
    if n == 0 then Ok(([], b)) else
    var (items, b1) :- ParseItems(k, n - 1, b);
    var (item, rest) :- Parse(k, b1);
    Ok((items + [item], rest))
  }

  // ----- decode after encode -----

  lemma {:induction false} NumRoundTrip(width: nat, v: nat, rest: bytes)
    requires v < Span(width)
    ensures ParseNum(width, LittleEndian(v, width) + rest) == Ok((v, rest))
  {
    DecodeEncodeInt(v, width);
    var b := LittleEndian(v, width) + rest;
    assert b[..width] == LittleEndian(v, width) && b[width..] == rest;
  }

  lemma TakeExact(p: bytes, rest: bytes)
    ensures Take(p + rest, |p|) == Ok((p, rest))
  {
    assert (p + rest)[..|p|] == p && (p + rest)[|p|..] == rest;
  }

  /** A length or count prefix is read back, leaving what it counts. */
  lemma PrefixRoundTrip(width: nat, n: nat, body: bytes, rest: bytes)
    requires n < Span(width)
    ensures ParseNum(width, LittleEndian(n, width) + body + rest) == Ok((n, body + rest))
  {
    assert LittleEndian(n, width) + body + rest == LittleEndian(n, width) + (body + rest);
    NumRoundTrip(width, n, body + rest);
  }

  lemma {:induction false} ParseEncode(k: Kind, f: Field, rest: bytes)
    requires Matches(k, f) && Fits(f)
    ensures Parse(k, Encode(f) + rest) == Ok((f, rest))
    decreases f, 0
  {
    match f
    case Num(w, v) => NumRoundTrip(w, v, rest);
    case Text(s) => ParseEncodeText(s, rest);
    case Blob(d) => ParseEncodeBlob(d, rest);
    case Row(fs) => ParseEncodeAll(k.ks, fs, rest);
    case Group(fs) =>
      ParseEncodeAll(k.ks, fs, []);
      assert EncodeAll(fs) + [] == EncodeAll(fs);
      ParseEncodeGroup(k.ks, fs, rest);
    case List(items) =>
      ParseEncodeItems(k.k, items, rest);
      ParseEncodeList(k.k, items, rest);
  }

  lemma ParseEncodeText(s: bytes, rest: bytes)
    requires |s| <= MAX_TEXT
    ensures Parse(KText, Encode(Text(s)) + rest) == Ok((Text(s), rest))
  {
    SpanOfWidths();
    PrefixRoundTrip(2, |s|, s, rest);
    TakeExact(s, rest);
  }

  lemma ParseEncodeBlob(d: bytes, rest: bytes)
    requires |d| < 0x1_0000_0000
    ensures Parse(KBlob, Encode(Blob(d)) + rest) == Ok((Blob(d), rest))
  {
    SpanOfWidths();
    PrefixRoundTrip(4, |d|, d, rest);
    TakeExact(d, rest);
  }

  lemma ParseEncodeGroup(ks: seq<Kind>, fs: seq<Field>, rest: bytes)
    requires |EncodeAll(fs)| <= 0xFFFF
    requires ParseAll(ks, EncodeAll(fs)) == Ok((fs, []))
    ensures Parse(KGroup(ks), Encode(Group(fs)) + rest) == Ok((Group(fs), rest))
  {
    SpanOfWidths();
    var body := EncodeAll(fs);
    PrefixRoundTrip(2, |body|, body, rest);
    TakeExact(body, rest);
  }

  lemma ParseEncodeList(k: Kind, items: seq<Field>, rest: bytes)
    requires |items| <= MAX_WALK_ELEMENTS
    requires ParseItems(k, |items|, EncodeAll(items) + rest) == Ok((items, rest))
    ensures Parse(KList(k), Encode(List(items)) + rest) == Ok((List(items), rest))
  {
    SpanOfWidths();
    PrefixRoundTrip(2, |items|, EncodeAll(items), rest);
  }

  lemma {:induction false} ParseEncodeAll(ks: seq<Kind>, fs: seq<Field>, rest: bytes)
    requires MatchesAll(ks, fs) && FitsAll(fs)
    ensures ParseAll(ks, EncodeAll(fs) + rest) == Ok((fs, rest))
    decreases fs, 1
  {
    if fs == [] {
      assert EncodeAll(fs) + rest == rest;
    } else {
      var m := |fs| - 1;
      assert EncodeAll(fs) + rest == EncodeAll(fs[..m]) + (Encode(fs[m]) + rest);
      ParseEncodeAll(ks[..m], fs[..m], Encode(fs[m]) + rest);
      ParseEncode(ks[m], fs[m], rest);
      assert fs[..m] + [fs[m]] == fs;
    }
  }

  lemma {:induction false} ParseEncodeItems(k: Kind, items: seq<Field>, rest: bytes)
    requires forall i :: 0 <= i < |items| ==> Matches(k, items[i])
    requires FitsAll(items)
    ensures ParseItems(k, |items|, EncodeAll(items) + rest) == Ok((items, rest))
    decreases items, 1
  {
    if items == [] {
      assert EncodeAll(items) + rest == rest;
    } else {
      var m := |items| - 1;
      assert EncodeAll(items) + rest == EncodeAll(items[..m]) + (Encode(items[m]) + rest);
      ParseEncodeItems(k, items[..m], Encode(items[m]) + rest);
      ParseEncode(k, items[m], rest);
      assert items[..m] + [items[m]] == items;
    }
  }

  // ----- encode after decode -----

  lemma {:induction false} NumInverse(width: nat, b: bytes)
    requires ParseNum(width, b).Ok?
    ensures var (v, rest) := ParseNum(width, b).value;
            v < Span(width) && b == LittleEndian(v, width) + rest
  {
    EncodeDecodeInt(b[..width]);
    assert b == b[..width] + b[width..];
  }

  lemma TakeInverse(prefix: bytes, b: bytes, n: nat)
    requires n <= |b|
    ensures prefix + b == (prefix + b[..n]) + b[n..]
  {
    assert b == b[..n] + b[n..];
  }

  lemma {:induction false} EncodeParse(k: Kind, b: bytes)
    requires Parse(k, b).Ok?
    ensures var (f, rest) := Parse(k, b).value;
            Matches(k, f) && Fits(f) && b == Encode(f) + rest
    decreases k, 0, 0
  {
    match k
    case KNum(w) => NumInverse(w, b);
    case KText => EncodeParseText(b);
    case KBlob => EncodeParseBlob(b);
    case KRow(ks) => EncodeParseAll(ks, b);
    case KGroup(ks) => EncodeParseGroup(ks, b);
    case KList(item) => EncodeParseList(item, b);
  }

  lemma {:induction false} EncodeParseText(b: bytes)
    requires Parse(KText, b).Ok?
    ensures var (f, rest) := Parse(KText, b).value;
            Matches(KText, f) && Fits(f) && b == Encode(f) + rest
  {
    SpanOfWidths();
    NumInverse(2, b);
    var (n, b1) := ParseNum(2, b).value;
    TakeInverse(LittleEndian(n, 2), b1, n);
  }

  lemma {:induction false} EncodeParseBlob(b: bytes)
    requires Parse(KBlob, b).Ok?
    ensures var (f, rest) := Parse(KBlob, b).value;
            Matches(KBlob, f) && Fits(f) && b == Encode(f) + rest
  {
    SpanOfWidths();
    NumInverse(4, b);
    var (n, b1) := ParseNum(4, b).value;
    TakeInverse(LittleEndian(n, 4), b1, n);
  }

  lemma {:induction false} EncodeParseGroup(ks: seq<Kind>, b: bytes)
    requires Parse(KGroup(ks), b).Ok?
    ensures var (f, rest) := Parse(KGroup(ks), b).value;
            Matches(KGroup(ks), f) && Fits(f) && b == Encode(f) + rest
    decreases ks, 1, 0
  {
    SpanOfWidths();
    NumInverse(2, b);
    var (n, b1) := ParseNum(2, b).value;
    EncodeParseAll(ks, b1[..n]);
    var (fs, extra) := ParseAll(ks, b1[..n]).value;
    assert EncodeAll(fs) + [] == EncodeAll(fs);
    TakeInverse(LittleEndian(n, 2), b1, n);
  }

  lemma {:induction false} EncodeParseList(item: Kind, b: bytes)
    requires Parse(KList(item), b).Ok?
    ensures var (f, rest) := Parse(KList(item), b).value;
            Matches(KList(item), f) && Fits(f) && b == Encode(f) + rest
    decreases item, 2, 0
  {
    SpanOfWidths();
    NumInverse(2, b);
    var (n, b1) := ParseNum(2, b).value;
    EncodeParseItems(item, n, b1);
    var (items, rest) := ParseItems(item, n, b1).value;
    assert LittleEndian(n, 2) + (EncodeAll(items) + rest) == LittleEndian(n, 2) + EncodeAll(items) + rest;
  }

  lemma SnocMatches(ks: seq<Kind>, fs: seq<Field>, f: Field)
    requires ks != [] && MatchesAll(ks[..|ks| - 1], fs) && Matches(ks[|ks| - 1], f)
    ensures MatchesAll(ks, fs + [f])
  {
    forall i | 0 <= i < |ks|
      ensures Matches(ks[i], (fs + [f])[i])
    {
      if i < |ks| - 1 {
        assert Matches(ks[..|ks| - 1][i], fs[i]);
      }
    }
  }

  lemma SnocFits(fs: seq<Field>, f: Field)
    requires FitsAll(fs) && Fits(f)
    ensures FitsAll(fs + [f])
  {
  }

  lemma {:induction false} EncodeParseAll(ks: seq<Kind>, b: bytes)
    requires ParseAll(ks, b).Ok?
    ensures var (fs, rest) := ParseAll(ks, b).value;
            MatchesAll(ks, fs) && FitsAll(fs) && b == EncodeAll(fs) + rest
    decreases ks, 0, 0
  {
    if ks != [] {
      var m := |ks| - 1;
      EncodeParseAll(ks[..m], b);
      var (fs, b1) := ParseAll(ks[..m], b).value;
      EncodeParse(ks[m], b1);
      var (f, rest) := Parse(ks[m], b1).value;
      SnocMatches(ks, fs, f);
      SnocFits(fs, f);
      Append(fs, f, rest);
    }
  }

  lemma {:induction false} EncodeParseItems(k: Kind, n: nat, b: bytes)
    requires ParseItems(k, n, b).Ok?
    ensures var (items, rest) := ParseItems(k, n, b).value;
            && |items| == n
            && (forall i :: 0 <= i < n ==> Matches(k, items[i]))
            && FitsAll(items)
            && b == EncodeAll(items) + rest
    decreases k, 1, n
  {
    if n > 0 {
      EncodeParseItems(k, n - 1, b);
      var (items, b1) := ParseItems(k, n - 1, b).value;
      EncodeParse(k, b1);
      var (item, rest) := Parse(k, b1).value;
      SnocFits(items, item);
      Append(items, item, rest);
    }
  }

  lemma Append(fs: seq<Field>, f: Field, rest: bytes)
    ensures EncodeAll(fs + [f]) == EncodeAll(fs) + Encode(f)
    ensures EncodeAll(fs) + (Encode(f) + rest) == EncodeAll(fs + [f]) + rest
  {
    assert (fs + [f])[..|fs|] == fs;
  }

  lemma {:induction false} EncodeConcat(fs: seq<Field>, gs: seq<Field>)
    ensures EncodeAll(fs + gs) == EncodeAll(fs) + EncodeAll(gs)
  {
    if gs == [] {
      assert fs + gs == fs;
      assert EncodeAll(fs) + [] == EncodeAll(fs);
    } else {
      var init, last := gs[..|gs| - 1], gs[|gs| - 1];
      EncodeConcat(fs, init);
      Append(fs + init, last, []);
      assert (fs + init) + [last] == fs + gs;
      assert (EncodeAll(fs) + EncodeAll(init)) + Encode(last) == EncodeAll(fs) + (EncodeAll(init) + Encode(last));
    }
  }
}
