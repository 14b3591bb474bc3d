/** A server spelled out in a file name, as in `host=...,key=...,api=...,relay=...`, is read back: in any
    order after the host, with parts missing or repeated, in any letter case, with notes in between. */
module KeyValueRoundTrip {
  import opened Prelude
  import opened Text
  import opened LicenceName
  import opened LicenceRoundTrip

  predicate NoComma(s: string) {
    ',' !in s
  }

  predicate IsTag(t: string) {
    t == "host=" || t == "key=" || t == "api=" || t == "relay="
  }

  /** What stands between two commas. */
  datatype Part = Field(tag: string, value: string) | Note(text: string)

  function Spelled(p: Part): string {
    match p
    case Field(tag, value) => tag + value
    case Note(text) => text
  }

  predicate Untagged(note: string) {
    var l := Lower(note);
    !StartsWith(l, "host=") && !StartsWith(l, "key=") && !StartsWith(l, "api=") && !StartsWith(l, "relay=")
  }

  predicate WellFormed(p: Part) {
    && NoComma(Spelled(p))
    && match p
       case Field(tag, _) => IsTag(Lower(tag))
       case Note(text) => Untagged(text)
  }

  /** The value a tag was given last, nothing if it was not. */
  function Lookup(parts: seq<Part>, tag: string): string {
    if parts == [] then ""
    else
      var last := parts[|parts| - 1];
      if last.Field? && Lower(last.tag) == tag then last.value else Lookup(parts[..|parts| - 1], tag)
  }

  function Texts(parts: seq<Part>): (texts: seq<string>)
    ensures |texts| == |parts| && forall i | 0 <= i < |parts| :: texts[i] == Spelled(parts[i])
  {
    if parts == [] then [] else Texts(parts[..|parts| - 1]) + [Spelled(parts[|parts| - 1])]
  }

  function Commas(texts: seq<string>): string
    requires |texts| > 0
  {
    if |texts| == 1 then texts[0] else texts[0] + ("," + Commas(texts[1..]))
  }

  // ---------------------------------------------------------------------------------------------
  // Splitting at the commas

  lemma CommaFree(note: string)
    requires NoComma(note)
    ensures Absent(note, ",") && Split(note, ",") == [note]
  {
    forall i
      ensures !OccursAt(note, ",", i)
    {
      if OccursAt(note, ",", i) {
        OccurrenceChar(note, ",", i, 0);
        assert false;
      }
    }
    SplitAbsent(note, ",");
  }

  lemma {:induction false} SplitCommas(texts: seq<string>)
    requires |texts| > 0 && forall i | 0 <= i < |texts| :: NoComma(texts[i])
    ensures Split(Commas(texts), ",") == texts
  {
    CommaFree(texts[0]);
    if |texts| > 1 {
      var rest := texts[1..];
      SplitCommas(rest);
      SplitConcat(texts[0], Commas(rest), ",");
      assert texts == [texts[0]] + rest;
    }
  }

  // ---------------------------------------------------------------------------------------------
  // Looking up a tag

  lemma TagStarts(t: string, value: string, tag: string)
    requires IsTag(Lower(t)) && IsTag(tag)
    ensures StartsWith(Lower(t + value), tag) <==> Lower(t) == tag
    ensures (t + value)[|t|..] == value
  {
    LowerConcat(t, value);
    var l := Lower(t) + Lower(value);
    assert l[..|t|] == Lower(t);
    if Lower(t) != tag {
      assert Lower(t)[0] != tag[0];
      if |l| >= |tag| {
        assert l[..|tag|][0] == l[0];
      }
    }
  }

  lemma {:induction false} TextsLookUp(parts: seq<Part>, tag: string)
    requires IsTag(tag) && forall i | 0 <= i < |parts| :: WellFormed(parts[i])
    ensures LastValue(Texts(parts), tag) == Lookup(parts, tag)
  {
    if parts != [] {
      var before, last := parts[..|parts| - 1], parts[|parts| - 1];
      TextsLookUp(before, tag);
      assert Texts(parts)[..|before|] == Texts(before);
      assert WellFormed(last);
      if last.Field? {
        TagStarts(last.tag, last.value, tag);
        assert |last.tag| == |Lower(last.tag)|;
      }
    }
  }

  // ---------------------------------------------------------------------------------------------
  // Finding the host

  lemma {:induction false} FirstIndexIsFirst(s: string, p: string, i: nat)
    requires |p| > 0 && OccursAt(s, p, i) && forall j | 0 <= j < i :: !OccursAt(s, p, j)
    ensures Contains(s, p) && FirstIndex(s, p) == i
  {
    assert OccursAt(s, p, i);
    if i > 0 {
      var t := s[1..];
      forall j | 0 <= j < i
        ensures OccursAt(t, p, j) <==> OccursAt(s, p, j + 1)
      {
        TailOccurs(s, p, j);
      }
      FirstIndexIsFirst(t, p, i - 1);
    }
  }

  /** Behind a prefix without `host=`, the first one is the spelling's own. */
  lemma HostComesFirst(prefix: string, rest: string)
    requires !Contains(Lower(prefix), "host=") && StartsWith(Lower(rest), "host=")
    ensures Contains(Lower(prefix + rest), "host=") && FirstIndex(Lower(prefix + rest), "host=") == |prefix|
  {
    var s := Lower(prefix + rest);
    LowerConcat(prefix, rest);
    assert s[|prefix|..|prefix| + 5] == Lower(rest)[..5];
    forall j | 0 <= j < |prefix|
      ensures !OccursAt(s, "host=", j)
    {
      if OccursAt(s, "host=", j) {
        if j + 5 <= |prefix| {
          HostInPrefix(prefix, rest, j);
        } else {
          assert s[|prefix|] == Lower(rest)[..5][0];
          OccurrenceChar(s, "host=", j, |prefix| - j);
        }
        assert false;
      }
    }
    FirstIndexIsFirst(s, "host=", |prefix|);
  }

  lemma LongEnding(s: string)
    ensures EndsWith(s, ".exe.exe") ==> |s| >= 8 && EndsWith(s, ".exe") && EndsWith(s[..|s| - 4], ".exe")
  {
    if EndsWith(s, ".exe.exe") {
      assert s[|s| - 4..] == s[|s| - 8..][4..];
      assert s[..|s| - 4][|s| - 8..] == s[|s| - 8..][..4];
    }
  }

  /** Whatever does not end in the extension itself loses exactly the extension. */
  lemma StripsExactly(body: string, e: string)
    requires !EndsWith(Lower(body), ".exe") && IsExtension(e)
    ensures StripExe(body + e) == body
  {
    LowerConcat(body, e);
    assert |e| == |Lower(e)| && (body + e)[..|body|] == body;
    var l := Lower(body + e);
    LongEnding(l);
    if |e| == 8 {
      assert l[|l| - 8..] == Lower(e);
    } else if |e| == 4 {
      assert l[|l| - 4..] == Lower(e) && l[..|l| - 4] == Lower(body);
    } else {
      assert l == Lower(body);
    }
  }

  lemma CommasStart(texts: seq<string>, t: string)
    requires |texts| > 0 && StartsWith(Lower(texts[0]), t)
    ensures StartsWith(Lower(Commas(texts)), t)
  {
    if |texts| > 1 {
      LowerConcat(texts[0], "," + Commas(texts[1..]));
      assert Lower(Commas(texts))[..|t|] == Lower(texts[0])[..|t|];
    }
  }

  /** Every field comes back with the value its tag was given last, whatever stands before the host. */
  lemma RoundTrip(k: Codec, parts: seq<Part>, prefix: string, e: string)
    requires |parts| > 0 && forall i | 0 <= i < |parts| :: WellFormed(parts[i])
    requires parts[0].Field? && Lower(parts[0].tag) == "host="
    requires !Contains(Lower(prefix), "host=") && !EndsWith(Lower(prefix + Commas(Texts(parts))), ".exe") && IsExtension(e)
    ensures FromString(k, prefix + Commas(Texts(parts)) + e)
         == Some(CustomServer(Lookup(parts, "key="), Lookup(parts, "host="), Lookup(parts, "api="), Lookup(parts, "relay=")))
  {
    var texts := Texts(parts);
    var s := Commas(texts);
    StripsExactly(prefix + s, e);
    TagStarts(parts[0].tag, parts[0].value, "host=");
    CommasStart(texts, "host=");
    HostComesFirst(prefix, s);
    assert (prefix + s)[|prefix|..] == s;
    assert forall i | 0 <= i < |texts| :: NoComma(texts[i]) by {
      assert forall i | 0 <= i < |parts| :: WellFormed(parts[i]);
    }
    SplitCommas(texts);
    TextsLookUp(parts, "key=");
    TextsLookUp(parts, "host=");
    TextsLookUp(parts, "api=");
    TextsLookUp(parts, "relay=");
  }
}
