/** base64url without padding and with it, as in section 5 of RFC 4648. */
module Base64Url {
  import opened Prelude

  /** The value of a character of the alphabet `A`-`Z`, `a`-`z`, `0`-`9`, `-`, `_`. */
  function Value(c: char): (v: Option<int>)
    ensures v.Some? ==> 0 <= v.value < 64
  {
    if 'A' <= c <= 'Z' then Some(c as int - 'A' as int)
    else if 'a' <= c <= 'z' then Some(c as int - 'a' as int + 26)
    else if '0' <= c <= '9' then Some(c as int - '0' as int + 52)
    else if c == '-' then Some(62)
    else if c == '_' then Some(63)
    else None
  }

  function Digit(v: int): (c: char)
    requires 0 <= v < 64
    ensures Value(c) == Some(v)
  {
    if v < 26 then ('A' as int + v) as char
    else if v < 52 then ('a' as int + v - 26) as char
    else if v < 62 then ('0' as int + v - 52) as char
    else if v == 62 then '-'
    else '_'
  }

  lemma DigitOfValue(c: char)
    requires Value(c).Some?
    ensures Digit(Value(c).value) == c
  {}

  const UPPER: string := "ABCDEFGHIJKLMNOPQRSTUVWXYZ"
  const LOWER: string := "abcdefghijklmnopqrstuvwxyz"
  const DIGITS: string := "0123456789-_"

  /** The alphabet in the order of table 2 of RFC 4648. */
  lemma DigitsInOrder(v: int)
    requires 0 <= v < 64
    ensures Digit(v) == if v < 26 then UPPER[v] else if v < 52 then LOWER[v - 26] else DIGITS[v - 52]
  {
    if v < 26 {
      UpperCase(v);
    } else if v < 52 {
      LowerCase(v - 26);
    }
  }

  lemma UpperCase(i: nat)
    requires i < 26
    ensures UPPER[i] as int == 'A' as int + i
  {}

  lemma LowerCase(i: nat)
    requires i < 26
    ensures LOWER[i] as int == 'a' as int + i
  {}

  function Encode(b: seq<Byte>): string {
    if |b| == 0 then []
    else if |b| == 1 then [Digit(b[0] / 4), Digit(b[0] % 4 * 16)]
    else if |b| == 2 then [Digit(b[0] / 4), Digit(b[0] % 4 * 16 + b[1] / 16), Digit(b[1] % 16 * 4)]
    else Quad(b[0], b[1], b[2]) + Encode(b[3..])
  }

  function Quad(x: Byte, y: Byte, z: Byte): string {
    [Digit(x / 4), Digit(x % 4 * 16 + y / 16), Digit(y % 16 * 4 + z / 64), Digit(z % 64)]
  }

  function Triple(v0: int, v1: int, v2: int, v3: int): seq<Byte>
    requires 0 <= v0 < 64 && 0 <= v1 < 64 && 0 <= v2 < 64 && 0 <= v3 < 64
  {
    [v0 * 4 + v1 / 16, v1 % 16 * 16 + v2 / 4, v2 % 4 * 64 + v3]
  }

  /** Decoding without padding: no foreign character, no stray sextet, no stray bits. */
  function Decode(s: string): Option<seq<Byte>> {
    if |s| == 0 then Some([])
    else if |s| == 1 then None
    else
      var v0, v1 := Value(s[0]), Value(s[1]);
      if v0.None? || v1.None? then None
      else if |s| == 2 then if v1.value % 16 == 0 then Some([v0.value * 4 + v1.value / 16]) else None
      else
        var v2 := Value(s[2]);
        if v2.None? then None
        else if |s| == 3 then
          if v2.value % 4 == 0 then Some([v0.value * 4 + v1.value / 16, v1.value % 16 * 16 + v2.value / 4]) else None
        else
          var v3, rest := Value(s[3]), Decode(s[4..]);
          if v3.None? || rest.None? then None
          else Some(Triple(v0.value, v1.value, v2.value, v3.value) + rest.value)
  }

  /** Decoding with padding: whole quads, at most two trailing `=`. */
  function DecodePadded(s: string): Option<seq<Byte>> {
    if |s| % 4 != 0 then None
    else if |s| >= 2 && s[|s| - 2..] == "==" then Decode(s[..|s| - 2])
    else if |s| >= 1 && s[|s| - 1] == '=' then Decode(s[..|s| - 1])
    else Decode(s)
  }

  lemma QuadInverse(x: Byte, y: Byte, z: Byte)
    ensures Triple(x / 4, x % 4 * 16 + y / 16, y % 16 * 4 + z / 64, z % 64) == [x, y, z]
  {}

  lemma EncodePair(x: Byte, y: Byte)
    ensures Decode(Encode([x, y])) == Some([x, y])
  {
    QuadInverse(x, y, 0);
    var v0, v1, v2 := x / 4, x % 4 * 16 + y / 16, y % 16 * 4;
    assert Encode([x, y]) == [Digit(v0), Digit(v1), Digit(v2)];
    assert Triple(v0, v1, v2, 0) == [x, y, 0];
  }

  lemma EncodeSingle(x: Byte)
    ensures Decode(Encode([x])) == Some([x])
  {
    QuadInverse(x, 0, 0);
    var v0, v1 := x / 4, x % 4 * 16;
    assert Encode([x]) == [Digit(v0), Digit(v1)];
    assert Triple(v0, v1, 0, 0) == [x, 0, 0];
  }

  lemma DecodeSextets(v0: int, v1: int, v2: int, v3: int, rest: string)
    requires 0 <= v0 < 64 && 0 <= v1 < 64 && 0 <= v2 < 64 && 0 <= v3 < 64 && Decode(rest).Some?
    ensures Decode([Digit(v0), Digit(v1), Digit(v2), Digit(v3)] + rest) == Some(Triple(v0, v1, v2, v3) + Decode(rest).value)
  {
    var s := [Digit(v0), Digit(v1), Digit(v2), Digit(v3)] + rest;
    assert s[4..] == rest;
  }

  lemma DecodeQuad(x: Byte, y: Byte, z: Byte, rest: string)
    requires Decode(rest).Some?
    ensures Decode(Quad(x, y, z) + rest) == Some([x, y, z] + Decode(rest).value)
  {
    QuadInverse(x, y, z);
    DecodeSextets(x / 4, x % 4 * 16 + y / 16, y % 16 * 4 + z / 64, z % 64, rest);
  }

  lemma EncodeStep(b: seq<Byte>)
    requires |b| >= 3
    ensures Encode(b) == Quad(b[0], b[1], b[2]) + Encode(b[3..])
  {}

  lemma FirstThree(b: seq<Byte>, more: seq<Byte>)
    requires |b| >= 3
    ensures b + more == [b[0], b[1], b[2]] + (b[3..] + more) && (more == [] ==> b == [b[0], b[1], b[2]] + b[3..])
  {}

  lemma {:induction false} DecodeEncode(b: seq<Byte>)
    ensures Decode(Encode(b)) == Some(b)
  {
    if |b| >= 3 {
      DecodeEncode(b[3..]);
      EncodeStep(b);
      DecodeQuad(b[0], b[1], b[2], Encode(b[3..]));
      FirstThree(b, []);
    } else if |b| == 2 {
      EncodePair(b[0], b[1]);
      assert b == [b[0], b[1]];
    } else if |b| == 1 {
      EncodeSingle(b[0]);
      assert b == [b[0]];
    }
  }

  lemma TripleInverse(v0: int, v1: int, v2: int, v3: int)
    requires 0 <= v0 < 64 && 0 <= v1 < 64 && 0 <= v2 < 64 && 0 <= v3 < 64
    ensures var b := Triple(v0, v1, v2, v3);
            && b[0] / 4 == v0 && b[0] % 4 * 16 + b[1] / 16 == v1
            && b[1] % 16 * 4 + b[2] / 64 == v2 && b[2] % 64 == v3
  {}

  /** Only its own encoding decodes to a byte string. */
  lemma {:induction false} EncodeDecode(s: string)
    requires Decode(s).Some?
    ensures Encode(Decode(s).value) == s
  {
    if |s| >= 4 {
      EncodeDecode(s[4..]);
      QuadDecode(s);
    } else if |s| == 3 {
      PairDecode(s);
    } else if |s| == 2 {
      SingleDecode(s);
    }
  }

  lemma QuadDecode(s: string)
    requires |s| >= 4 && Decode(s).Some? && Encode(Decode(s[4..]).value) == s[4..]
    ensures Encode(Decode(s).value) == s
  {
    var v0, v1, v2, v3 := Value(s[0]).value, Value(s[1]).value, Value(s[2]).value, Value(s[3]).value;
    var t, rest := Triple(v0, v1, v2, v3), Decode(s[4..]).value;
    assert (t + rest)[3..] == rest;
    TripleInverse(v0, v1, v2, v3);
    DigitOfValue(s[0]);
    DigitOfValue(s[1]);
    DigitOfValue(s[2]);
    DigitOfValue(s[3]);
    assert s == s[..4] + s[4..];
  }

  lemma PairDecode(s: string)
    requires |s| == 3 && Decode(s).Some?
    ensures Encode(Decode(s).value) == s
  {
    var v0, v1, v2 := Value(s[0]).value, Value(s[1]).value, Value(s[2]).value;
    var b := Triple(v0, v1, v2, 0);
    TripleInverse(v0, v1, v2, 0);
    DigitOfValue(s[0]);
    DigitOfValue(s[1]);
    DigitOfValue(s[2]);
    assert b[2] == 0 && Decode(s).value == [b[0], b[1]];
    assert Encode([b[0], b[1]]) == [Digit(v0), Digit(v1), Digit(v2)];
  }

  lemma SingleDecode(s: string)
    requires |s| == 2 && Decode(s).Some?
    ensures Encode(Decode(s).value) == s
  {
    var v0, v1 := Value(s[0]).value, Value(s[1]).value;
    var b := Triple(v0, v1, 0, 0);
    TripleInverse(v0, v1, 0, 0);
    DigitOfValue(s[0]);
    DigitOfValue(s[1]);
    assert b[1] == 0 && Decode(s).value == [b[0]];
    assert Encode([b[0]]) == [Digit(v0), Digit(v1)];
  }

  predicate IsAscii(b: seq<Byte>) {
    forall i | 0 <= i < |b| :: b[i] < 128
  }

  predicate InAlphabet(s: string) {
    forall i | 0 <= i < |s| :: Value(s[i]).Some?
  }

  /** The characters of an encoding, quad by quad. */
  lemma {:induction false} EncodeAt(b: seq<Byte>, i: nat)
    requires i < |Encode(b)|
    ensures Value(Encode(b)[i]).Some?
    ensures IsAscii(b) && Encode(b)[i] == '-' ==> i % 4 == 3
  {
    if |b| >= 3 {
      if i >= 4 {
        EncodeAt(b[3..], i - 4);
        assert Encode(b)[i] == Encode(b[3..])[i - 4];
      } else {
        assert Encode(b)[i] == Quad(b[0], b[1], b[2])[i];
        QuadDash(b[0], b[1], b[2], i);
      }
    } else {
      TailDash(b, i);
    }
  }

  lemma QuadDash(x: Byte, y: Byte, z: Byte, i: nat)
    requires i < 4
    ensures Value(Quad(x, y, z)[i]).Some?
    ensures x < 128 && y < 128 && z < 128 && i != 3 ==> Quad(x, y, z)[i] != '-'
  {}

  lemma TailDash(b: seq<Byte>, i: nat)
    requires |b| < 3 && i < |Encode(b)|
    ensures Value(Encode(b)[i]).Some?
    ensures IsAscii(b) ==> Encode(b)[i] != '-'
  {}

  lemma EncodeAlphabet(b: seq<Byte>)
    ensures InAlphabet(Encode(b))
    ensures |b| > 0 ==> |Encode(b)| >= 2
  {
    forall i | 0 <= i < |Encode(b)|
      ensures Value(Encode(b)[i]).Some?
    {
      EncodeAt(b, i);
    }
  }

  /** For seven-bit bytes the dash, value 62, can only be the last sextet of a quad. */
  lemma DashesAreLastInQuad(b: seq<Byte>)
    requires IsAscii(b)
    ensures forall i | 0 <= i < |Encode(b)| && Encode(b)[i] == '-' :: i % 4 == 3
  {
    forall i | 0 <= i < |Encode(b)| && Encode(b)[i] == '-'
      ensures i % 4 == 3
    {
      EncodeAt(b, i);
    }
  }

  /** What ends in a closing brace encodes to something ending in `9`, `Q` or `0`. */
  lemma {:induction false} BraceEnding(b: seq<Byte>)
    requires |b| > 0 && b[|b| - 1] == 0x7D
    ensures |Encode(b)| > 0 && Encode(b)[|Encode(b)| - 1] in "9Q0"
  {
    if |b| > 3 {
      BraceEnding(b[3..]);
      assert Encode(b) == Quad(b[0], b[1], b[2]) + Encode(b[3..]);
    } else if |b| == 3 {
      assert Encode(b) == Quad(b[0], b[1], b[2]);
      assert Digit(0x7D % 64) == '9';
    } else if |b| == 2 {
      assert Digit(0x7D % 16 * 4) == '0';
    } else {
      assert Digit(0x7D % 4 * 16) == 'Q';
    }
  }

  /** Foreign characters never decode. */
  lemma {:induction false} DecodesOnlyAlphabet(s: string)
    requires Decode(s).Some?
    ensures InAlphabet(s)
  {
    if |s| >= 4 {
      DecodesOnlyAlphabet(s[4..]);
      forall i | 0 <= i < |s|
        ensures Value(s[i]).Some?
      {
        assert i >= 4 ==> s[i] == s[4..][i - 4];
      }
    }
  }

  lemma QuadInFront(b: seq<Byte>, e: string, t: string, decoded: seq<Byte>)
    requires |b| >= 3 && Decode(e + t) == Some(b[3..] + decoded)
    ensures Decode(Quad(b[0], b[1], b[2]) + (e + t)) == Some(b + decoded)
  {
    DecodeQuad(b[0], b[1], b[2], e + t);
    FirstThree(b, decoded);
  }

  lemma Regroup(a: string, b: string, c: string)
    ensures a + b + c == a + (b + c)
  {}

  /** Whole quads decode on their own, whatever follows. */
  lemma {:induction false} DecodeConcat(b: seq<Byte>, t: string, decoded: seq<Byte>)
    requires |b| % 3 == 0 && Decode(t) == Some(decoded)
    ensures Decode(Encode(b) + t) == Some(b + decoded)
  {
    if b == [] {
      assert Encode(b) + t == t && b + decoded == decoded;
    } else {
      ThreeLess(|b|);
      DecodeConcat(b[3..], t, decoded);
      EncodeStep(b);
      QuadInFront(b, Encode(b[3..]), t, decoded);
      Regroup(Quad(b[0], b[1], b[2]), Encode(b[3..]), t);
    }
  }

  lemma ThreeLess(n: nat)
    requires n >= 3
    ensures (n - 3) % 3 == n % 3
  {}

  lemma {:induction false} EncodeLength(b: seq<Byte>)
    ensures |Encode(b)| % 4 == if |b| % 3 == 0 then 0 else |b| % 3 + 1
  {
    if |b| >= 3 {
      ThreeLess(|b|);
      EncodeLength(b[3..]);
      EncodeStep(b);
      FourMore(|Encode(b[3..])|);
    } else {
      EncodeShort(b);
    }
  }

  lemma EncodeShort(b: seq<Byte>)
    requires |b| < 3
    ensures |Encode(b)| == if |b| == 0 then 0 else |b| + 1
  {}

  lemma FourMore(n: nat)
    ensures (n + 4) % 4 == n % 4
  {}

  /** An incomplete last quad whose last sextet is odd has stray bits. */
  lemma {:induction false} StrayBits(s: string)
    requires |s| % 4 >= 2 && Value(s[|s| - 1]).Some? && Value(s[|s| - 1]).value % 2 == 1
    ensures Decode(s) == None
  {
    if |s| > 4 {
      StrayBits(s[4..]);
    }
  }

  /** Whole quads of the alphabet always decode. */
  lemma {:induction false} WholeQuadsDecode(s: string)
    requires InAlphabet(s) && |s| % 4 == 0
    ensures Decode(s).Some? && |Decode(s).value| == |s| / 4 * 3
  {
    if s != [] {
      WholeQuadsDecode(s[4..]);
    }
  }

  /** A quad is its three bytes as one number, written in base 64, high digit first. */
  lemma QuadIsBase64(x: Byte, y: Byte, z: Byte, q: string)
    requires q == Quad(x, y, z)
    ensures Value(q[0]).Some? && Value(q[1]).Some? && Value(q[2]).Some? && Value(q[3]).Some?
    ensures (x * 256 + y) * 256 + z
         == ((Value(q[0]).value * 64 + Value(q[1]).value) * 64 + Value(q[2]).value) * 64 + Value(q[3]).value
  {}
}
