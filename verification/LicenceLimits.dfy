/** When a licence does not survive the trip through a file name: the exact condition on the prefix, and
    what becomes of the file name the generator prints itself. */
module LicenceLimits {
  import opened Prelude
  import opened Base64Url
  import opened Text
  import opened LicenceName
  import opened LicenceRoundTrip

  /** White space in the sense of section 2 of RFC 8259. */
  predicate IsJsonSpace(b: Byte) {
    b == 0x20 || b == 0x09 || b == 0x0A || b == 0x0D
  }

  /** Bytes that JSON does not allow behind a value. */
  predicate Foreign(t: seq<Byte>) {
    |t| > 0 && !IsJsonSpace(t[0])
  }

  /** With trailing bytes the JSON is refused, and taken for no signed message either. */
  ghost predicate RefusesMore(k: Codec, json: seq<Byte>) {
    forall t | Foreign(t) :: FromBytes(k, json + t) == None
  }

  // ---------------------------------------------------------------------------------------------
  // A dash behind the encoding decodes to foreign bytes

  lemma DashAfterQuads(rest: string, t: seq<Byte>)
    requires |rest| > 0 && rest[0] == '-' && Decode(rest) == Some(t)
    ensures |t| > 0 && t[0] >= 248
  {
    assert Value('-') == Some(62);
  }

  lemma LongDecode(s: string)
    requires |s| >= 4 && Decode(s).Some?
    ensures forall i | 0 <= i < 4 :: Value(s[i]).Some?
    ensures Decode(s[4..]).Some?
    ensures Decode(s).value
         == Triple(Value(s[0]).value, Value(s[1]).value, Value(s[2]).value, Value(s[3]).value) + Decode(s[4..]).value
  {}

  lemma SingleThenDash(x: Byte, v: int)
    requires 0 <= v < 64
    ensures Triple(x / 4, x % 4 * 16, 62, v) == [x, 15, 128 + v]
  {}

  lemma PairThenDash(x: Byte, y: Byte)
    ensures Triple(x / 4, x % 4 * 16 + y / 16, y % 16 * 4, 62) == [x, y, 62]
  {}

  lemma SingleValues(b: seq<Byte>, s: string)
    requires |b| == 1 && |s| >= 2 && s[..2] == Encode(b)
    ensures Value(s[0]) == Some(b[0] / 4) && Value(s[1]) == Some(b[0] % 4 * 16)
  {
    assert s[0] == s[..2][0] && s[1] == s[..2][1];
  }

  lemma PairValues(b: seq<Byte>, s: string)
    requires |b| == 2 && |s| >= 3 && s[..3] == Encode(b)
    ensures Value(s[0]) == Some(b[0] / 4) && Value(s[1]) == Some(b[0] % 4 * 16 + b[1] / 16)
    ensures Value(s[2]) == Some(b[1] % 16 * 4)
  {
    assert s[0] == s[..3][0] && s[1] == s[..3][1] && s[2] == s[..3][2];
  }

  lemma DashIsNoEnd(s: string)
    requires |s| == 3 && s[2] == '-'
    ensures Decode(s) == None
  {
    assert Value('-') == Some(62);
  }

  lemma Behind(b: seq<Byte>, all: seq<Byte>, rest: seq<Byte>)
    requires |b| <= |all| && all[..|b|] == b
    ensures all + rest == b + (all[|b|..] + rest)
  {}

  lemma DashAfterSingle(b: seq<Byte>, s: string) returns (t: seq<Byte>)
    requires |b| == 1 && |s| >= 3 && s[..2] == Encode(b) && s[2] == '-' && Decode(s).Some?
    ensures Decode(s) == Some(b + t) && |t| > 0 && t[0] == 15
  {
    SingleValues(b, s);
    if |s| == 3 {
      DashIsNoEnd(s);
    }
    LongDecode(s);
    var v, rest := Value(s[3]).value, Decode(s[4..]).value;
    SingleThenDash(b[0], v);
    Behind(b, [b[0], 15, 128 + v], rest);
    t := [b[0], 15, 128 + v][1..] + rest;
  }

  lemma DashAfterPair(b: seq<Byte>, s: string) returns (t: seq<Byte>)
    requires |b| == 2 && |s| >= 4 && s[..3] == Encode(b) && s[3] == '-' && Decode(s).Some?
    ensures Decode(s) == Some(b + t) && |t| > 0 && t[0] == 62
  {
    PairValues(b, s);
    LongDecode(s);
    var rest := Decode(s[4..]).value;
    PairThenDash(b[0], b[1]);
    Behind(b, [b[0], b[1], 62], rest);
    t := [b[0], b[1], 62][2..] + rest;
  }

  lemma DashAfterShort(b: seq<Byte>, rest: string) returns (t: seq<Byte>)
    requires |b| < 3 && |rest| > 0 && rest[0] == '-' && Decode(Encode(b) + rest).Some?
    ensures Decode(Encode(b) + rest) == Some(b + t) && Foreign(t)
  {
    var s := Encode(b) + rest;
    EncodeShort(b);
    assert s[..|Encode(b)|] == Encode(b) && s[|Encode(b)|] == '-';
    if |b| == 0 {
      assert s == rest;
      t := Decode(rest).value;
      DashAfterQuads(rest, t);
      assert b + t == t;
    } else if |b| == 1 {
      t := DashAfterSingle(b, s);
    } else {
      t := DashAfterPair(b, s);
    }
  }

  /** Whatever decodes with a dash behind the encoding decodes to the bytes with foreign ones behind. */
  lemma {:induction false} DashAfter(json: seq<Byte>, rest: string) returns (t: seq<Byte>)
    requires |rest| > 0 && rest[0] == '-' && Decode(Encode(json) + rest).Some?
    ensures Decode(Encode(json) + rest) == Some(json + t) && Foreign(t)
    decreases |json|
  {
    if |json| < 3 {
      t := DashAfterShort(json, rest);
    } else {
      var quad, e := Quad(json[0], json[1], json[2]), Encode(json[3..]);
      EncodeStep(json);
      Regroup(quad, e, rest);
      TailDecodes(quad, e + rest);
      t := DashAfter(json[3..], rest);
      QuadInFront(json, e, rest, t);
    }
  }

  lemma TailDecodes(quad: string, s: string)
    requires |quad| == 4 && Decode(quad + s).Some?
    ensures Decode(s).Some?
  {
    LongDecode(quad + s);
    assert (quad + s)[4..] == s;
  }

  lemma DashRefused(k: Codec, json: seq<Byte>, rest: string)
    requires RefusesMore(k, json) && |rest| > 0 && rest[0] == '-' && Decode(Encode(json) + rest).Some?
    ensures FromBytes(k, Decode(Encode(json) + rest).value) == None
  {
    var t := DashAfter(json, rest);
  }

  /** Taking padding off leaves the dash where it is. */
  lemma PaddedDashRefused(k: Codec, json: seq<Byte>, rest: string)
    requires RefusesMore(k, json) && |rest| > 0 && rest[0] == '-' && DecodePadded(Encode(json) + rest).Some?
    ensures FromBytes(k, DecodePadded(Encode(json) + rest).value) == None
  {
    var e := Encode(json);
    var r := e + rest;
    if |r| >= 2 && r[|r| - 2..] == "==" {
      assert r[|r| - 2] == r[|r| - 2..][0] && r[|r| - 1] == r[|r| - 2..][1];
      assert r[..|r| - 2] == e + rest[..|rest| - 2];
      DashRefused(k, json, rest[..|rest| - 2]);
    } else if r[|r| - 1] == '=' {
      assert r[..|r| - 1] == e + rest[..|rest| - 1];
      DashRefused(k, json, rest[..|rest| - 1]);
    } else {
      DashRefused(k, json, rest);
    }
  }

  lemma PrefixedBackwards(json: seq<Byte>, w: string)
    ensures Reverse(w + GenName(json)) == Encode(json) + Reverse(w)
  {}

  /** A name with a dash in front of it is not read. */
  lemma DashedNameRefused(k: Codec, json: seq<Byte>, w: string)
    requires RefusesMore(k, json) && EndsInDash(w)
    ensures FromConfigString(k, w + GenName(json)) == None
  {
    var rest := Reverse(w);
    PrefixedBackwards(json, w);
    if Decode(Encode(json) + rest).Some? {
      DashRefused(k, json, rest);
    } else if DecodePadded(Encode(json) + rest).Some? {
      PaddedDashRefused(k, json, rest);
    }
  }

  // ---------------------------------------------------------------------------------------------
  // A piece that a dash was left over in front of

  ghost predicate NoneRead(k: Codec, pieces: seq<string>) {
    forall i | 0 <= i < |pieces| :: FromConfigString(k, Trim(pieces[i])) == None
  }

  lemma {:induction false} FirstOfNone(k: Codec, pieces: seq<string>)
    ensures FirstOf(k, pieces) == None <==> NoneRead(k, pieces)
  {
    if pieces != [] {
      FirstOfNone(k, pieces[1..]);
      assert pieces == [pieces[0]] + pieces[1..];
      if NoneRead(k, pieces) {
        forall i | 0 <= i < |pieces[1..]|
          ensures FromConfigString(k, Trim(pieces[1..][i])) == None
        {
          assert pieces[1..][i] == pieces[i + 1];
        }
      }
      if FirstOf(k, pieces) == None {
        forall i | 0 <= i < |pieces|
          ensures FromConfigString(k, Trim(pieces[i])) == None
        {
          assert i > 0 ==> pieces[i] == pieces[1..][i - 1];
        }
      }
    }
  }

  lemma NoneReadIn(k: Codec, s: string)
    requires FromPiece(k, s) == None && '(' in s
    ensures NoneRead(k, Split(s, "("))
  {
    FirstOfNone(k, Split(s, "("));
  }

  /** A parenthesis never lies across a seam. */
  lemma ParenthesisSeam(a: string, b: string)
    ensures Split(a + b, "(") == Join(Split(a, "("), Split(b, "("))
  {
    SplitSeam(a, b, "(");
  }

  lemma NoParenthesis(s: string)
    requires '(' !in s
    ensures Split(s, "(") == [s]
  {
    forall i
      ensures !OccursAt(s, "(", i)
    {
      if OccursAt(s, "(", i) {
        OccurrenceChar(s, "(", i, 0);
        assert false;
      }
    }
    SplitAbsent(s, "(");
  }

  predicate White(s: string) {
    forall i | 0 <= i < |s| :: IsSpace(s[i])
  }

  /** A suffix starts with white space up to its first parenthesis. */
  lemma SuffixStart(d: string)
    requires IsCopySuffix(d)
    ensures White(Split(d, "(")[0]) && (d != "" ==> '(' in d)
  {
    if d != "" {
      var m :| 0 <= m < |d| && d[m] == '(' && forall i | 0 <= i < m :: IsSpace(d[i]);
      assert '(' in d && White(d[..m]);
      FirstCut("", d, m);
      assert "" + d == d && "" + d[..m] == d[..m];
    }
  }

  lemma SuffixRest(k: Codec, d: string)
    requires IsCopySuffix(d) && FromPiece(k, d) == None
    ensures NoneRead(k, Split(d, "(")[1..])
  {
    SuffixStart(d);
    if d != "" {
      NoneReadIn(k, d);
    }
  }

  lemma FrontParts(k: Codec, u: string)
    requires FromPiece(k, u) == None
    ensures NoneRead(k, AllButLast(Split(u, "(")))
  {
    if '(' in u {
      NoneReadIn(k, u);
    } else {
      NoParenthesis(u);
    }
  }

  /** The parts of a piece with a name in it. */
  lemma PartsAround(u: string, n: string, d: string)
    requires '(' !in n
    ensures var us, ds := Split(u, "("), Split(d, "(");
            Split(u + (n + d), "(") == AllButLast(us) + [LastOf(us) + n + ds[0]] + ds[1..]
  {
    NoParenthesis(n);
    ParenthesisSeam(n, d);
    ParenthesisSeam(u, n + d);
    JoinThrough(Split(u, "("), n, Split(d, "("));
  }

  lemma JoinThrough(us: seq<string>, n: string, ds: seq<string>)
    requires |us| > 0 && |ds| > 0
    ensures Join(us, Join([n], ds)) == AllButLast(us) + [LastOf(us) + n + ds[0]] + ds[1..]
  {
    assert Join([n], ds) == [n + ds[0]] + ds[1..];
    assert LastOf(us) + (n + ds[0]) == LastOf(us) + n + ds[0];
  }

  /** The name runs on behind a dash, with white space behind it at most: it is not read. */
  lemma DashedName(k: Codec, json: seq<Byte>, v: string, white: string)
    requires RefusesMore(k, json) && |json| > 0 && EndsInDash(v) && White(white)
    ensures FromConfigString(k, Trim(v + GenName(json) + white)) == None
  {
    var n := GenName(json);
    NameAlphabet(json);
    assert Value(n[|n| - 1]).Some?;
    var w := TrimAround(v, n, white);
    DashedNameRefused(k, json, w);
  }

  lemma NoneReadAround(k: Codec, a: seq<string>, m: string, b: seq<string>)
    requires NoneRead(k, a) && FromConfigString(k, Trim(m)) == None && NoneRead(k, b)
    ensures NoneRead(k, a + [m] + b)
  {}

  lemma NameHasNoParenthesis(json: seq<Byte>)
    ensures '(' !in GenName(json)
  {
    NameAlphabet(json);
  }

  /** Of the parts of the piece a left-over dash runs into, none is read. */
  lemma DashedParts(k: Codec, json: seq<Byte>, u: string, d: string)
    requires RefusesMore(k, json) && |json| > 0 && EndsInDash(u) && IsCopySuffix(d)
    requires FromPiece(k, u) == None && FromPiece(k, d) == None
    ensures NoneRead(k, Split(u + (GenName(json) + d), "("))
  {
    var us, ds := Split(u, "("), Split(d, "(");
    NameHasNoParenthesis(json);
    PartsAround(u, GenName(json), d);
    FrontParts(k, u);
    SuffixStart(d);
    SuffixRest(k, d);
    LastPieceEnds(u, "(", '-');
    DashedName(k, json, LastOf(us), ds[0]);
    NoneReadAround(k, AllButLast(us), LastOf(us) + GenName(json) + ds[0], ds[1..]);
  }

  lemma NoPartRead(k: Codec, t: string)
    requires NoneRead(k, Split(t, "("))
    ensures FromPiece(k, t) == None
  {
    if '(' in t {
      TrimKeeps(t, '(');
      ParenthesisNeverDecodes(k, Trim(t));
      FirstOfNone(k, Split(t, "("));
    } else {
      NoParenthesis(t);
      assert FromConfigString(k, Trim(Split(t, "(")[0])) == None;
    }
  }

  lemma DashedPiece(k: Codec, json: seq<Byte>, u: string, d: string)
    requires RefusesMore(k, json) && |json| > 0 && EndsInDash(u) && IsCopySuffix(d)
    requires FromPiece(k, u) == None && FromPiece(k, d) == None
    ensures FromPiece(k, u + (GenName(json) + d)) == None
  {
    DashedParts(k, json, u, d);
    NoPartRead(k, u + (GenName(json) + d));
  }

  lemma {:induction false} NoPieceRead(k: Codec, pieces: seq<string>, last: string)
    requires FromPieces(k, pieces + [last]) == None
    ensures FromPieces(k, pieces) == None && FromPiece(k, last) == None
  {
    if pieces == [] {
      assert pieces + [last] == [last];
    } else {
      assert (pieces + [last])[1..] == pieces[1..] + [last];
      NoPieceRead(k, pieces[1..], last);
    }
  }

  lemma NothingRead(k: Codec, pieces: seq<string>)
    requires |pieces| > 0 && FromPieces(k, pieces) == None
    ensures FromPieces(k, AllButLast(pieces)) == None && FromPiece(k, LastOf(pieces)) == None
  {
    assert pieces == AllButLast(pieces) + [LastOf(pieces)];
    NoPieceRead(k, AllButLast(pieces), LastOf(pieces));
  }

  /**
    Exactly when a licence comes back: if what stands around it holds no licence and its JSON is refused
    with trailing bytes, then it does if and only if the dashes in front of the name pair off once the
    separators are rewritten.
  */
  lemma RoundTripIff(k: Codec, json: seq<Byte>, server: CustomServer, prefix: string, x: string, d: string, e: string)
    requires k.parse(json) == Some(server) && RefusesMore(k, json) && IsAsciiObject(json)
    requires IsSeparator(x) && !Contains(Lower(prefix), "host=") && FromLicensed(k, prefix + x) == None
    requires IsCopySuffix(d) && FromPiece(k, d) == None && IsExtension(e)
    ensures FromString(k, prefix + x + (GenName(json) + d) + e) == if Separates(prefix, x) then Some(server) else None
  {
    NothingRead(k, Split(Rewrite(prefix + x), "--"));
    if Separates(prefix, x) {
      NameUnpadded(json);
      RoundTrip(k, json, 0, server, prefix, x, d, e);
    } else {
      Unseparated(k, json, prefix, x, d, e);
    }
  }

  lemma Unseparated(k: Codec, json: seq<Byte>, prefix: string, x: string, d: string, e: string)
    requires RefusesMore(k, json) && IsAsciiObject(json)
    requires IsSeparator(x) && !Contains(Lower(prefix), "host=") && !Separates(prefix, x)
    requires NothingBefore(k, prefix, x) && FromPiece(k, LastOf(Split(Rewrite(prefix + x), "--"))) == None
    requires IsCopySuffix(d) && FromPiece(k, d) == None && IsExtension(e)
    ensures FromString(k, prefix + x + (GenName(json) + d) + e) == None
  {
    var before := Split(Rewrite(prefix + x), "--");
    var q := GenName(json) + d;
    NameUnpadded(json);
    NameIsShaped(json, 0);
    ReadsPieces(k, GenName(json), 0, prefix, x, d, e);
    NameIsTail(json, 0, d);
    PiecesOf(prefix, x, q);
    TryInOrder(k, AllButLast(before), LastOf(before) + q);
    DashedPiece(k, json, LastOf(before), d);
  }

  // ---------------------------------------------------------------------------------------------
  // Prefixes that do not separate

  const LICENSED: string := "-licensed"

  /** The overlapping separators of a prefix that ends in `-licensed`: the first one is rewritten. */
  lemma SwallowedStage(a: string, q: string, p: string)
    requires Clean(a) && IsPattern(p) && Tail(q)
    ensures var b := LICENSED_1 + ("licensed-" + q);
            Replace(a + b, p, "--") == Replace(a, p, "--") + if p == LICENSED_1 then "--" + ("licensed-" + q) else b
    ensures Clean(Replace(a, p, "--"))
  {
    var rest := "licensed-" + q;
    var b := LICENSED_1 + rest;
    CleanSeam(a, b, p);
    ReplaceConcat(a, b, p, "--");
    ReplaceKeepsClean(a, p);
    if p == LICENSED_1 {
      assert b[..|p|] == p && b[|p|..] == rest;
      ReplaceHit(b, p, "--");
      NoPatternInRest(q);
      ReplaceAbsent(rest, p, "--");
    } else {
      NoLongPattern(q, b, p);
      ReplaceAbsent(b, p, "--");
    }
  }

  lemma NoPatternInRest(q: string)
    requires Tail(q)
    ensures Absent("licensed-" + q, LICENSED_1)
  {
    var s := "licensed-" + q;
    forall i
      ensures !OccursAt(s, LICENSED_1, i)
    {
      if OccursAt(s, LICENSED_1, i) {
        OccurrenceChar(s, LICENSED_1, i, 0);
        OccurrenceChar(s, LICENSED_1, i, 1);
        if i >= 9 {
          OccursInTail("licensed-", q, LICENSED_1, i);
        }
        assert false;
      }
    }
  }

  lemma NoLongPattern(q: string, b: string, p: string)
    requires Tail(q) && b == LICENSED_1 + ("licensed-" + q) && (p == LICENSED_2 || p == LICENSED_3)
    ensures Absent(b, p)
  {
    var front := "-licensed-licensed-";
    assert b == front + q;
    forall i
      ensures !OccursAt(b, p, i)
    {
      if OccursAt(b, p, i) {
        OccurrenceChar(b, p, i, 9);
        OccurrenceChar(b, p, i, 10);
        if i + 9 >= |front| {
          assert q[i + 9 - |front|..i + 11 - |front|] == "--";
          DoubleDash(q, i + 9 - |front|);
        }
        assert false;
      }
    }
  }

  lemma DoubleDash(q: string, i: nat)
    requires i + 2 <= |q| && q[i..i + 2] == "--"
    ensures !Absent(q, "--")
  {
    assert OccursAt(q, "--", i);
  }

  lemma RewriteSwallowed(a: string, q: string, s: string)
    requires Clean(a) && Tail(q) && s == a + (LICENSED_1 + ("licensed-" + q))
    ensures Rewrite(s) == Rewrite(a) + ("--" + ("licensed-" + q))
  {
    SwallowedStage(a, q, LICENSED_3);
    SwallowedStage(Replace(a, LICENSED_3, "--"), q, LICENSED_2);
    SwallowedStage(Replace(Replace(a, LICENSED_3, "--"), LICENSED_2, "--"), q, LICENSED_1);
  }

  lemma OneDash(r: string, s: string)
    requires s == r + "--licensed-"
    ensures TrailingDashes(s) == 1
  {
    assert s[|s| - 2] == 'd';
    assert s[..|s| - 1][|s| - 2] == 'd';
  }

  /** A prefix that ends in `-licensed` swallows a `-licensed-` behind it; a `--` behind it is fine. */
  lemma LicensedPrefixSeparates(a: string)
    requires Clean(a)
    ensures !Separates(a + LICENSED, LICENSED_1)
    ensures Separates(a + LICENSED, "--")
  {
    var q, s := "9", a + LICENSED + LICENSED_1;
    SingleTail(q);
    assert s + q == a + (LICENSED_1 + ("licensed-" + q));
    RewriteSwallowed(a, q, s + q);
    RewriteBefore(s, q, s + q);
    assert "--" + ("licensed-" + q) == "--licensed-" + q;
    SameFront(Rewrite(s), Rewrite(a), "--licensed-", q);
    OneDash(Rewrite(a), Rewrite(s));
    assert a + LICENSED + "--" == a + LICENSED_2;
    CleanPrefixSeparates(a, LICENSED_2);
  }

  /** So the licence is lost behind it. */
  lemma LicensedPrefixSwallowsSeparator(k: Codec, json: seq<Byte>, server: CustomServer, a: string, d: string, e: string)
    requires k.parse(json) == Some(server) && RefusesMore(k, json) && IsAsciiObject(json) && Clean(a)
    requires !Contains(Lower(a + LICENSED), "host=") && FromLicensed(k, a + LICENSED + LICENSED_1) == None
    requires IsCopySuffix(d) && FromPiece(k, d) == None && IsExtension(e)
    ensures FromString(k, a + LICENSED + LICENSED_1 + (GenName(json) + d) + e) == None
  {
    LicensedPrefixSeparates(a);
    RoundTripIff(k, json, server, a + LICENSED, LICENSED_1, d, e);
  }

  // ---------------------------------------------------------------------------------------------
  // The file name the generator prints

  const PRINTED_PREFIX: string := "rustdesk-custom_serverd-"
  const PRINTED_EXTENSION: string := ".exe"

  /** A prefix that is whole quads of the alphabet when read backwards, from a dash to an odd sextet. */
  predicate InQuads(p: string) {
    && InAlphabet(p) && |p| > 0 && |p| % 4 == 0
    && p[|p| - 1] == '-' && Value(p[0]).value % 2 == 1
  }

  lemma BackwardsDecodes(p: string)
    requires InQuads(p)
    ensures Decode(Reverse(p)).Some? && |Decode(Reverse(p)).value| == |p| / 4 * 3
  {
    assert InAlphabet(Reverse(p));
    WholeQuadsDecode(Reverse(p));
  }

  /** What the quads of a prefix, read backwards, decode to. */
  function Trailer(p: string): seq<Byte>
    requires InQuads(p)
  {
    BackwardsDecodes(p);
    Decode(Reverse(p)).value
  }

  lemma TrailerIsForeign(p: string)
    requires InQuads(p)
    ensures Foreign(Trailer(p))
  {
    BackwardsDecodes(p);
    DashAfterQuads(Reverse(p), Trailer(p));
  }

  lemma PrintedDash(i: nat)
    requires i < |PRINTED_PREFIX|
    ensures PRINTED_PREFIX[i] == '-' ==> i == |PRINTED_PREFIX| - 1 || (PRINTED_PREFIX[i + 1] != '-' && PRINTED_PREFIX[i + 1] != 'l')
  {}

  lemma PrintedHasNoPattern(n: string, s: string, p: string)
    requires Tail(n) && s == PRINTED_PREFIX + n && (p == "--" || p == LICENSED_1)
    ensures Absent(s, p)
  {
    forall i
      ensures !OccursAt(s, p, i)
    {
      if OccursAt(s, p, i) {
        OccurrenceChar(s, p, i, 0);
        OccurrenceChar(s, p, i, 1);
        if i >= |PRINTED_PREFIX| {
          OccursInTail(PRINTED_PREFIX, n, p, i);
        } else {
          PrintedDash(i);
        }
        assert false;
      }
    }
  }

  /** It has a single dash before the name, which is no separator: prefix and name are one piece. */
  lemma PrintedNameIsOnePiece(n: string, s: string)
    requires Tail(n) && s == PRINTED_PREFIX + n
    ensures Split(Rewrite(s), "--") == [s]
  {
    PrintedHasNoPattern(n, s, "--");
    PrintedHasNoPattern(n, s, LICENSED_1);
    LongerPatternsAbsent(s, LICENSED_3);
    LongerPatternsAbsent(s, LICENSED_2);
    ReplaceAbsent(s, LICENSED_3, "--");
    ReplaceAbsent(s, LICENSED_2, "--");
    ReplaceAbsent(s, LICENSED_1, "--");
    SplitAbsent(s, "--");
  }

  lemma PrintedChars(i: nat)
    requires i < |PRINTED_PREFIX|
    ensures PRINTED_PREFIX[i] !in "(.= " && Value(PRINTED_PREFIX[i]).Some?
  {}

  /** Every character of the printed name is one of the alphabet. */
  lemma PrintedAlphabet(json: seq<Byte>, s: string)
    requires s == PRINTED_PREFIX + GenName(json)
    ensures InAlphabet(s)
  {
    NameAlphabet(json);
    forall i | 0 <= i < |s|
      ensures Value(s[i]).Some?
    {
      if i < |PRINTED_PREFIX| {
        PrintedChars(i);
      }
    }
  }

  lemma AlphabetChars(s: string)
    requires InAlphabet(s) && |s| >= 4
    ensures '(' !in s && Trim(s) == s && DotFreeEnd(s) && forall i | 0 <= i < |s| :: s[i] != '='
  {
    TrimTrailing(s, "");
    assert s + "" == s;
  }

  lemma ReadsOnePiece(k: Codec, s: string)
    requires InAlphabet(s) && |s| >= 4 && Split(Rewrite(s), "--") == [s]
    ensures FromString(k, s + PRINTED_EXTENSION) == FromConfigString(k, s)
  {
    AlphabetChars(s);
    assert Lower(PRINTED_EXTENSION) == ".exe";
    StripsExtension(s, PRINTED_EXTENSION);
    NoHostBehind("", s);
    assert "" + s == s;
    assert FromPieces(k, [s]) == FromPiece(k, s);
  }

  lemma PrefixedDecodes(json: seq<Byte>, p: string, r: string)
    requires InQuads(p) && r == Encode(json) + Reverse(p)
    ensures |json| % 3 == 0 ==> Decode(r) == Some(json + Trailer(p))
    ensures |json| % 3 != 0 ==> Decode(r) == None && DecodePadded(r) == None
  {
    EncodeLength(json);
    if |json| % 3 == 0 {
      BackwardsDecodes(p);
      DecodeConcat(json, Reverse(p), Trailer(p));
    } else {
      assert |r| % 4 == |Encode(json)| % 4;
      assert r[|r| - 1] == p[0];
      StrayBits(r);
    }
  }

  /** What reading a name behind such a prefix comes to: with a JSON of a length that is no multiple of
      three it never decodes, and otherwise to the JSON with the prefix's bytes behind it. */
  lemma PrefixedNameReads(k: Codec, json: seq<Byte>, p: string)
    requires InQuads(p) && InAlphabet(p + GenName(json)) && Split(Rewrite(p + GenName(json)), "--") == [p + GenName(json)]
    ensures FromString(k, p + GenName(json) + PRINTED_EXTENSION)
         == if |json| % 3 == 0 then FromBytes(k, json + Trailer(p)) else None
  {
    ReadsOnePiece(k, p + GenName(json));
    PrefixedConfig(k, json, p);
  }

  lemma PrefixedConfig(k: Codec, json: seq<Byte>, p: string)
    requires InQuads(p)
    ensures FromConfigString(k, p + GenName(json)) == if |json| % 3 == 0 then FromBytes(k, json + Trailer(p)) else None
  {
    var r := Encode(json) + Reverse(p);
    PrefixedBackwards(json, p);
    PrefixedDecodes(json, p, r);
    if |json| % 3 == 0 {
      ReadsDecoded(k, p + GenName(json), r, json + Trailer(p));
    } else {
      ReadsNothing(k, p + GenName(json), r);
    }
  }

  lemma ReadsDecoded(k: Codec, s: string, r: string, bytes: seq<Byte>)
    requires Reverse(s) == r && Decode(r) == Some(bytes)
    ensures FromConfigString(k, s) == FromBytes(k, bytes)
  {}

  lemma ReadsNothing(k: Codec, s: string, r: string)
    requires Reverse(s) == r && Decode(r) == None && DecodePadded(r) == None
    ensures FromConfigString(k, s) == None
  {}

  lemma PrintedInQuads()
    ensures InQuads(PRINTED_PREFIX)
  {
    forall i | 0 <= i < |PRINTED_PREFIX|
      ensures Value(PRINTED_PREFIX[i]).Some?
    {
      PrintedChars(i);
    }
    assert Value('r') == Some(43);
  }

  lemma PrintedName(json: seq<Byte>, p: string)
    requires IsAsciiObject(json) && p == PRINTED_PREFIX
    ensures InQuads(p) && InAlphabet(p + GenName(json)) && Split(Rewrite(p + GenName(json)), "--") == [p + GenName(json)]
  {
    var n := GenName(json);
    PrintedInQuads();
    NameUnpadded(json);
    NameIsTail(json, 0, "");
    assert n + "" == n;
    PrintedNameIsOnePiece(n, p + n);
    PrintedAlphabet(json, p + n);
  }

  /** So it goes with the file name the generator prints, whose prefix decodes to eighteen bytes. */
  lemma PrintedNameReads(k: Codec, json: seq<Byte>, p: string)
    requires IsAsciiObject(json) && p == PRINTED_PREFIX
    ensures InQuads(p) && |Trailer(p)| == 18
    ensures FromString(k, p + GenName(json) + PRINTED_EXTENSION)
         == if |json| % 3 == 0 then FromBytes(k, json + Trailer(p)) else None
  {
    PrintedName(json, p);
    BackwardsDecodes(p);
    PrefixedNameReads(k, json, p);
  }

  /** Hence no printed licence is read back from its own file name. */
  lemma PrintedNameIsNotRead(k: Codec, json: seq<Byte>, p: string)
    requires RefusesMore(k, json) && IsAsciiObject(json) && p == PRINTED_PREFIX
    ensures FromString(k, p + GenName(json) + PRINTED_EXTENSION) == None
  {
    PrintedName(json, p);
    PrefixedNameReads(k, json, p);
    TrailerIsForeign(p);
  }
}
