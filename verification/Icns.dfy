/** The ICNS container: a length-prefixed header and length-prefixed entries, written and read back. */
module Icns {
  import opened Prelude

  type Bytes = seq<Byte>

  const MAGIC: Bytes := [0x69, 0x63, 0x6E, 0x73]  // icns

  datatype Entry = Entry(ostype: Bytes, payload: Bytes)

  datatype ReadError = NotIcns | ShortHeader | TruncatedHeader | TruncatedEntry | LeftoverBytes

  datatype WriteError = MissingSize(size: nat) | TooLarge

  datatype Result<+A, +E> = Ok(value: A) | Err(error: E)

  // ---------------------------------------------------------------------------------------------
  // The format

  function BigEndian(n: nat): (b: Bytes)
    requires n < U32_LIMIT
    ensures |b| == 4
  {
    [n / 256 / 256 / 256, n / 256 / 256 % 256, n / 256 % 256, n % 256]
  }

  function FromBigEndian(b: Bytes): (n: nat)
    requires |b| == 4
    ensures n < U32_LIMIT
  {
    var n0: nat := b[0];
    var n1: nat := 256 * n0 + b[1];
    var n2: nat := 256 * n1 + b[2];
    256 * n2 + b[3]
  }

  lemma BigEndianInverse(n: nat)
    requires n < U32_LIMIT
    ensures FromBigEndian(BigEndian(n)) == n
  {
    var q1 := n / 256;
    var q2 := q1 / 256;
    assert q2 == 256 * (q2 / 256) + q2 % 256;
    assert q1 == 256 * q2 + q1 % 256;
    assert n == 256 * q1 + n % 256;
  }

  lemma LowByte(q: nat, b: Byte)
    ensures (256 * q + b) / 256 == q && (256 * q + b) % 256 == b
  {}

  lemma FromBigEndianInverse(b: Bytes)
    requires |b| == 4
    ensures BigEndian(FromBigEndian(b)) == b
  {
    var n0: nat := b[0];
    var n1: nat := 256 * n0 + b[1];
    var n2: nat := 256 * n1 + b[2];
    LowByte(n2, b[3]);
    LowByte(n1, b[2]);
    LowByte(n0, b[1]);
  }

  /** The most significant byte comes first: of two numbers the smaller has the smaller byte where their
      bytes first differ. */
  lemma BigEndianOrder(n: nat, m: nat) returns (i: nat)
    requires n < m < U32_LIMIT
    ensures i < 4 && BigEndian(n)[..i] == BigEndian(m)[..i] && BigEndian(n)[i] < BigEndian(m)[i]
  {
    var a, b := BigEndian(n), BigEndian(m);
    BigEndianInverse(n);
    BigEndianInverse(m);
    i := if a[0] != b[0] then 0 else if a[1] != b[1] then 1 else if a[2] != b[2] then 2 else 3;
  }

  predicate ValidEntry(e: Entry) {
    |e.ostype| == 4 && 8 + |e.payload| < U32_LIMIT
  }

  predicate ValidEntries(es: seq<Entry>) {
    forall i | 0 <= i < |es| :: ValidEntry(es[i])
  }

  function EntryBytes(e: Entry): Bytes
    requires ValidEntry(e)
  {
    e.ostype + BigEndian(8 + |e.payload|) + e.payload
  }

  /** The entries one after the other. */
  function Body(es: seq<Entry>): Bytes
    requires ValidEntries(es)
  {
    if es == [] then [] else EntryBytes(es[0]) + Body(es[1..])
  }

  predicate Fits(es: seq<Entry>) {
    ValidEntries(es) && 8 + |Body(es)| < U32_LIMIT
  }

  function Serialize(es: seq<Entry>): Bytes
    requires Fits(es)
  {
    MAGIC + BigEndian(8 + |Body(es)|) + Body(es)
  }

  function Types(es: seq<Entry>): seq<Bytes> {
    seq(|es|, i requires 0 <= i < |es| => es[i].ostype)
  }

  // ---------------------------------------------------------------------------------------------
  // Cutting a body into entries

  function Cut(b: Bytes): Option<seq<Entry>> {
    if b == [] then Some([])
    else if |b| < 8 then None
    else
      var size := FromBigEndian(b[4..8]);
      if size < 8 || size > |b| then None
      else
        match Cut(b[size..])
        case None => None
        case Some(rest) => Some([Entry(b[..4], b[8..size])] + rest)
  }

  /** Cutting a body gives its entries back. */
  lemma {:induction false} CutBody(es: seq<Entry>)
    requires ValidEntries(es)
    ensures Cut(Body(es)) == Some(es)
  {
    if es != [] {
      var e, rest := es[0], Body(es[1..]);
      var b := EntryBytes(e) + rest;
      CutBody(es[1..]);
      BigEndianInverse(8 + |e.payload|);
      assert b[4..8] == BigEndian(8 + |e.payload|);
      assert b[..4] == e.ostype && b[8..8 + |e.payload|] == e.payload && b[8 + |e.payload|..] == rest;
      assert es == [e] + es[1..];
    }
  }

  lemma FirstEntry(b: Bytes, size: nat)
    requires 8 <= size <= |b| && size == FromBigEndian(b[4..8])
    ensures var e := Entry(b[..4], b[8..size]); ValidEntry(e) && EntryBytes(e) == b[..size]
  {
    FromBigEndianInverse(b[4..8]);
    assert b[..4] + b[4..8] + b[8..size] == b[..size];
  }

  lemma BodyCons(e: Entry, rest: seq<Entry>)
    requires ValidEntry(e) && ValidEntries(rest)
    ensures ValidEntries([e] + rest) && Body([e] + rest) == EntryBytes(e) + Body(rest)
  {
    assert ([e] + rest)[1..] == rest;
  }

  /** The declared size of the first entry. */
  function FirstSize(b: Bytes): nat
    requires |b| >= 8
  {
    FromBigEndian(b[4..8])
  }

  lemma CutFirst(b: Bytes)
    requires b != [] && Cut(b).Some?
    ensures |b| >= 8 && 8 <= FirstSize(b) <= |b| && Cut(b[FirstSize(b)..]).Some?
    ensures Cut(b).value == [Entry(b[..4], b[8..FirstSize(b)])] + Cut(b[FirstSize(b)..]).value
  {}

  /** Whatever can be cut is tiled by the entries it was cut into. */
  lemma {:induction false} BodyCut(b: Bytes)
    requires Cut(b).Some?
    ensures ValidEntries(Cut(b).value) && Body(Cut(b).value) == b
  {
    if b != [] {
      CutFirst(b);
      var size := FirstSize(b);
      BodyCut(b[size..]);
      FirstEntry(b, size);
      BodyCons(Entry(b[..4], b[8..size]), Cut(b[size..]).value);
      assert b == b[..size] + b[size..];
    }
  }

  /** No file spells two entry lists. */
  lemma SerializeIsInjective(es: seq<Entry>, es': seq<Entry>)
    requires Fits(es) && Fits(es') && Serialize(es) == Serialize(es')
    ensures es == es'
  {
    assert Serialize(es)[8..] == Body(es) && Serialize(es')[8..] == Body(es');
    CutBody(es);
    CutBody(es');
  }

  // ---------------------------------------------------------------------------------------------
  // The reader

  /** The loop over the entries: the offset grows by at least eight and ends exactly at the end of
      the file, or the file cannot be cut. */
  method ReadEntries(data: Bytes) returns (found: seq<Bytes>, error: Option<ReadError>)
    requires |data| >= 8
    ensures error.None? <==> CutFrom(data, 8).Some?
    ensures error.None? ==> found == Types(CutFrom(data, 8).value)
  {
    var offset := 8;
    found := [];
    ghost var es: seq<Entry> := [];
    PrependNothing(CutFrom(data, 8));
    while offset + 8 <= |data|
      invariant 8 <= offset <= |data|
      invariant found == Types(es) && CutFrom(data, 8) == Prepend(es, CutFrom(data, offset))
      decreases |data| - offset
    {
      var ostype := data[offset..offset + 4];
      var size := FromBigEndian(data[offset + 4..offset + 8]);
      CutStep(data, offset);
      if size < 8 || offset + size > |data| {
        return found, Some(TruncatedEntry);
      }
      ghost var e := Entry(ostype, data[offset + 8..offset + size]);
      PrependSnoc(es, e, CutFrom(data, offset + size));
      assert Types(es + [e]) == Types(es) + [ostype];
      es := es + [e];
      found := found + [ostype];
      offset := offset + size;
    }
    if offset != |data| {
      return found, Some(LeftoverBytes);
    }
    assert es + [] == es;
    error := None;
  }

  /** `icns_types`: accepts exactly the files the format allows, and lists their entries in order. */
  method IcnsTypes(data: Bytes) returns (r: Result<seq<Bytes>, ReadError>)
    ensures r.Ok? ==> exists es :: Fits(es) && data == Serialize(es) && r.value == Types(es)
    ensures r.Err? ==> forall es | Fits(es) :: data != Serialize(es)
  {
    Rejected(data);
    if |data| < 4 || data[..4] != MAGIC {
      return Err(NotIcns);
    }
    if |data| < 8 {
      return Err(ShortHeader);
    }
    var declared := FromBigEndian(data[4..8]);
    if declared != |data| {
      return Err(TruncatedHeader);
    }
    var found, error := ReadEntries(data);
    if error.Some? {
      return Err(error.value);
    }
    Accepted(data);
    r := Ok(found);
  }

  lemma Accepted(data: Bytes)
    requires |data| >= 8 && data[..4] == MAGIC && FromBigEndian(data[4..8]) == |data| && CutFrom(data, 8).Some?
    ensures Fits(CutFrom(data, 8).value) && data == Serialize(CutFrom(data, 8).value)
  {
    BodyCut(data[8..]);
    FromBigEndianInverse(data[4..8]);
    assert data == data[..4] + data[4..8] + data[8..];
  }

  function CutFrom(data: Bytes, offset: nat): Option<seq<Entry>>
    requires offset <= |data|
  {
    Cut(data[offset..])
  }

  function Prepend(es: seq<Entry>, rest: Option<seq<Entry>>): Option<seq<Entry>> {
    match rest
    case None => None
    case Some(more) => Some(es + more)
  }

  lemma PrependNothing(rest: Option<seq<Entry>>)
    ensures Prepend([], rest) == rest
  {
    if rest.Some? {
      assert [] + rest.value == rest.value;
    }
  }

  lemma PrependSnoc(es: seq<Entry>, e: Entry, rest: Option<seq<Entry>>)
    ensures Prepend(es, Prepend([e], rest)) == Prepend(es + [e], rest)
  {
    if rest.Some? {
      assert es + ([e] + rest.value) == es + [e] + rest.value;
    }
  }

  /** A file that serialises some entries has the right header and can be cut. */
  lemma Rejected(data: Bytes)
    ensures (|data| < 8 || data[..4] != MAGIC || FromBigEndian(data[4..8]) != |data| || CutFrom(data, 8).None?)
            ==> forall es | Fits(es) :: data != Serialize(es)
  {
    forall es | Fits(es) && data == Serialize(es)
      ensures |data| >= 8 && data[..4] == MAGIC && FromBigEndian(data[4..8]) == |data| && CutFrom(data, 8).Some?
    {
      CutBody(es);
      BigEndianInverse(8 + |Body(es)|);
      assert data[..4] == MAGIC && data[4..8] == BigEndian(8 + |Body(es)|) && data[8..] == Body(es);
    }
  }

  lemma CutStep(data: Bytes, offset: nat)
    requires offset + 8 <= |data|
    ensures var size := FromBigEndian(data[offset + 4..offset + 8]);
            if size < 8 || offset + size > |data| then CutFrom(data, offset) == None
            else CutFrom(data, offset) == Prepend([Entry(data[offset..offset + 4], data[offset + 8..offset + size])], CutFrom(data, offset + size))
  {
    var b := data[offset..];
    var size := FromBigEndian(data[offset + 4..offset + 8]);
    assert b[4..8] == data[offset + 4..offset + 8] && b[..4] == data[offset..offset + 4];
    if 8 <= size && offset + size <= |data| {
      assert b[size..] == data[offset + size..] && b[8..size] == data[offset + 8..offset + size];
    }
  }

  lemma {:induction false} BodySnoc(es: seq<Entry>, e: Entry)
    requires ValidEntries(es) && ValidEntry(e)
    ensures Body(es + [e]) == Body(es) + EntryBytes(e)
  {
    if es == [] {
      assert es + [e] == [e] && [e][1..] == [];
    } else {
      BodySnoc(es[1..], e);
      assert (es + [e])[1..] == es[1..] + [e];
    }
  }

  // ---------------------------------------------------------------------------------------------
  // The writer

  function Chosen(types: seq<(Bytes, nat)>, pngs: map<nat, Bytes>): seq<Entry>
    requires forall i | 0 <= i < |types| :: types[i].1 in pngs
  {
    seq(|types|, i requires 0 <= i < |types| => Entry(types[i].0, pngs[types[i].1]))
  }

  /** `write_icns` for a table of types and sizes: what it writes is read back as exactly that table. */
  method WriteIcns(types: seq<(Bytes, nat)>, pngs: map<nat, Bytes>) returns (r: Result<Bytes, WriteError>)
    requires forall i | 0 <= i < |types| :: |types[i].0| == 4
    ensures r.Ok? <==> (forall i | 0 <= i < |types| :: types[i].1 in pngs) && Fits(Chosen(types, pngs))
    ensures r.Ok? ==> r.value == Serialize(Chosen(types, pngs))
  {
    var body := [];
    ghost var es := [];
    for i := 0 to |types|
      invariant forall j | 0 <= j < i :: types[j].1 in pngs
      invariant es == Chosen(types[..i], pngs) && ValidEntries(es) && body == Body(es)
    {
      if types[i].1 !in pngs {
        return Err(MissingSize(types[i].1));
      }
      var png := pngs[types[i].1];
      ghost var e := Entry(types[i].0, png);
      assert Chosen(types[..i + 1], pngs) == es + [e];
      if 8 + |png| >= U32_LIMIT {
        assert |types| > i ==> (forall j | 0 <= j < |types| :: types[j].1 in pngs) ==> Chosen(types, pngs)[i] == e;
        return Err(TooLarge);
      }
      BodySnoc(es, e);
      es := es + [e];
      body := body + (types[i].0 + BigEndian(8 + |png|) + png);
    }
    assert types[..|types|] == types;
    if 8 + |body| >= U32_LIMIT {
      return Err(TooLarge);
    }
    r := Ok(MAGIC + BigEndian(8 + |body|) + body);
  }

  /** Writing, then reading, lists the types of the table in order. */
  method WriteThenRead(types: seq<(Bytes, nat)>, pngs: map<nat, Bytes>) returns (r: Result<seq<Bytes>, WriteError>)
    requires forall i | 0 <= i < |types| :: |types[i].0| == 4
    ensures r.Ok? ==> |r.value| == |types| && forall i | 0 <= i < |types| :: r.value[i] == types[i].0
    ensures r.Err? ==> !((forall i | 0 <= i < |types| :: types[i].1 in pngs) && Fits(Chosen(types, pngs)))
  {
    var written := WriteIcns(types, pngs);
    if written.Err? {
      return Err(written.error);
    }
    var read := IcnsTypes(written.value);
    ghost var es :| Fits(es) && written.value == Serialize(es) && read.value == Types(es);
    SerializeIsInjective(es, Chosen(types, pngs));
    r := Ok(read.value);
  }
}
