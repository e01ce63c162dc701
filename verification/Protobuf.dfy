/** The protobuf writer of the hex registry, and a reader written from the
    encoding guide ("Base 128 Varints", "Message Structure") to undo it. */
module Protobuf {
  import opened Common

  const U64: nat := 0x1_0000_0000_0000_0000

  // ---- the encodings ------------------------------------------------------

  function Varint(n: nat): Bytes {
    if n < 128 then [n] else [128 + n % 128] + Varint(n / 128)
  }

  datatype Field = Blob(number: nat, bytes: Bytes) | Number(number: nat, value: nat)

  function FieldBytes(f: Field): Bytes {
    match f
    case Blob(k, bytes) => Varint(k * 8 + 2) + Varint(|bytes|) + bytes
    case Number(k, v) => Varint(k * 8) + Varint(v)
  }

  function Message(fields: seq<Field>): Bytes
    decreases |fields|
  {
    if fields == [] then [] else FieldBytes(fields[0]) + Message(fields[1..])
  }

  /** A signed 64-bit value cast to unsigned. */
  function AsU64(i: int): nat
    requires -0x8000_0000_0000_0000 <= i < 0x8000_0000_0000_0000
  {
    if i < 0 then U64 + i else i
  }

  // ---- the reader ---------------------------------------------------------

  /** Little-endian groups of seven bits; the top bit says more follow. */
  function ReadVarint(s: Bytes): (r: Option<(nat, Bytes)>)
    ensures r.Some? ==> |r.value.1| < |s|
  {
    if s == [] then None
    else if s[0] < 128 then Some((s[0], s[1..]))
    else
      match ReadVarint(s[1..])
      case None => None
      case Some((high, rest)) => Some((s[0] - 128 + 128 * high, rest))
  }

  function ReadField(s: Bytes): (r: Option<(Field, Bytes)>)
    ensures r.Some? ==> |r.value.1| < |s|
  {
    match ReadVarint(s)
    case None => None
    case Some((tag, body)) =>
      match ReadVarint(body)
      case None => None
      case Some((v, rest)) =>
        if tag % 8 == 0 then Some((Number(tag / 8, v), rest))
        else if tag % 8 == 2 && v <= |rest| then Some((Blob(tag / 8, rest[..v]), rest[v..]))
        else None
  }

  /** Reads exactly `n` fields and returns what follows them. */
  function ReadFields(s: Bytes, n: nat): Option<(seq<Field>, Bytes)>
    decreases n
  {
    if n == 0 then Some(([], s))
    else
      match ReadField(s)
      case None => None
      case Some((f, rest)) =>
        match ReadFields(rest, n - 1)
        case None => None
        case Some((fs, end)) => Some(([f] + fs, end))
  }

  /** Reads a whole message. */
  function ReadMessage(s: Bytes): Option<seq<Field>>
    decreases |s|
  {
    if s == [] then Some([])
    else
      match ReadField(s)
      case None => None
      case Some((f, rest)) =>
        match ReadMessage(rest)
        case None => None
        case Some(fs) => Some([f] + fs)
  }

  // ---- the varint ---------------------------------------------------------

  lemma {:induction false} VarintReads(n: nat, suffix: Bytes)
    ensures ReadVarint(Varint(n) + suffix) == Some((n, suffix))
  {
    var s := Varint(n) + suffix;
    if n < 128 {
      assert s[1..] == suffix;
    } else {
      VarintReads(n / 128, suffix);
      assert s[1..] == Varint(n / 128) + suffix;
    }
  }

  function Pow128(k: nat): nat { if k == 0 then 1 else 128 * Pow128(k - 1) }

  lemma {:induction false} VarintLength(n: nat, k: nat)
    requires k > 0
    ensures |Varint(n)| <= k <==> n < Pow128(k)
  {
    if n < 128 {
      assert 128 * Pow128(k - 1) >= 128 by { Pow128Positive(k - 1); }
    } else if k > 1 {
      VarintLength(n / 128, k - 1);
      assert Pow128(k) == 128 * Pow128(k - 1);
    }
  }

  lemma {:induction false} Pow128Positive(k: nat)
    ensures Pow128(k) >= 1
  {
    if k > 0 { Pow128Positive(k - 1); }
  }

  /** Seven bits a byte, the lowest first, and the top bit on all but the last. */
  lemma {:induction false} VarintGroups(n: nat, i: nat)
    requires i < |Varint(n)|
    ensures Pow128(i) >= 1 && Varint(n)[i] % 128 == (n / Pow128(i)) % 128
    ensures Varint(n)[i] >= 128 <==> i < |Varint(n)| - 1
  {
    Pow128Positive(i);
    if n >= 128 && i > 0 {
      VarintGroups(n / 128, i - 1);
      DividedTwice(n, Pow128(i - 1));
    }
  }

  lemma DividedTwice(n: nat, p: nat)
    requires p >= 1
    ensures n / 128 / p == n / (128 * p)
  {
    var q, r := n / 128, n % 128;
    var a, b := q / p, q % p;
    assert n == 128 * (a * p + b) + r && 128 * b + r < 128 * p;
    assert n == a * (128 * p) + (128 * b + r);
    QuotientIs(n, 128 * p, a, 128 * b + r);
  }

  lemma QuotientIs(n: nat, d: nat, q: nat, r: nat)
    requires d >= 1 && n == q * d + r && r < d
    ensures n / d == q
  {
    var k := n / d;
    assert n == k * d + n % d && (k - q) * d == k * d - q * d;
    if k > q { AtLeastOnce(k - q, d); }
    assert (q - k) * d == q * d - k * d;
    if k < q { AtLeastOnce(q - k, d); }
  }

  lemma AtLeastOnce(x: nat, d: nat)
    requires x >= 1
    ensures x * d >= d
  {
  }

  /** The guide's own examples. */
  lemma GuideExamples()
    ensures Varint(150) == [0x96, 0x01]
    ensures FieldBytes(Number(1, 150)) == [0x08, 0x96, 0x01]
    ensures FieldBytes(Blob(2, [0x74, 0x65, 0x73, 0x74, 0x69, 0x6e, 0x67])) == [0x12, 0x07, 0x74, 0x65, 0x73, 0x74, 0x69, 0x6e, 0x67]
  {
  }

  /** A field opens with its number and its wire type, 2 for bytes and 0 for numbers. */
  lemma TagOf(f: Field)
    ensures ReadVarint(FieldBytes(f)).Some? && ReadVarint(FieldBytes(f)).value.0 == 8 * f.number + (if f.Blob? then 2 else 0)
  {
    match f
    case Blob(k, bytes) =>
      VarintReads(k * 8 + 2, Varint(|bytes|) + bytes);
      assert FieldBytes(f) == Varint(k * 8 + 2) + (Varint(|bytes|) + bytes);
    case Number(k, v) => VarintReads(k * 8, Varint(v));
  }

  /** A negative number is written modulo the range of 64 bits. */
  lemma AsU64Congruent(i: int)
    requires -0x8000_0000_0000_0000 <= i < 0x8000_0000_0000_0000
    ensures 0 <= AsU64(i) < U64 && (AsU64(i) - i) % U64 == 0
  {
  }

  /** A 64-bit value takes at most ten bytes. */
  lemma VarintAtMostTen(n: nat)
    requires n < U64
    ensures 1 <= |Varint(n)| <= 10
  {
    VarintLength(n, 10);
    assert Pow128(5) == 0x8_0000_0000;
    assert Pow128(10) == 0x8_0000_0000 * Pow128(5);
  }

  /** No byte string that reads as `n` is shorter than the one written. */
  lemma {:induction false} VarintMinimal(s: Bytes, n: nat, suffix: Bytes)
    requires ReadVarint(s) == Some((n, suffix))
    ensures |s| - |suffix| >= |Varint(n)|
  {
    if s[0] >= 128 {
      var high := ReadVarint(s[1..]).value.0;
      VarintMinimal(s[1..], high, suffix);
      assert n / 128 == high;
    }
  }

  // ---- fields and messages ------------------------------------------------

  lemma TagParts(k: nat, wire: nat)
    requires wire < 8
    ensures (k * 8 + wire) / 8 == k && (k * 8 + wire) % 8 == wire
  {
  }

  lemma RegroupTwo(a: Bytes, b: Bytes, c: Bytes)
    ensures a + b + c == a + (b + c)
  {
  }

  lemma Regroup(a: Bytes, b: Bytes, c: Bytes, d: Bytes)
    ensures a + b + c + d == a + (b + c + d)
    ensures a + b + c + d == a + (b + (c + d))
  {
  }

  lemma BlobReads(k: nat, bytes: Bytes, suffix: Bytes)
    ensures ReadField(FieldBytes(Blob(k, bytes)) + suffix) == Some((Blob(k, bytes), suffix))
  {
    var len, rest := Varint(|bytes|), bytes + suffix;
    Regroup(Varint(k * 8 + 2), len, bytes, suffix);
    VarintReads(k * 8 + 2, len + rest);
    VarintReads(|bytes|, rest);
    TagParts(k, 2);
    assert rest[..|bytes|] == bytes && rest[|bytes|..] == suffix;
  }

  lemma NumberReads(k: nat, v: nat, suffix: Bytes)
    ensures ReadField(FieldBytes(Number(k, v)) + suffix) == Some((Number(k, v), suffix))
  {
    var tag, rest := Varint(k * 8), Varint(v) + suffix;
    assert FieldBytes(Number(k, v)) + suffix == tag + rest;
    VarintReads(k * 8, rest);
    VarintReads(v, suffix);
    TagParts(k, 0);
  }

  lemma FieldReads(f: Field, suffix: Bytes)
    ensures ReadField(FieldBytes(f) + suffix) == Some((f, suffix))
  {
    match f
    case Blob(k, bytes) => BlobReads(k, bytes, suffix);
    case Number(k, v) => NumberReads(k, v, suffix);
  }

  /** Writing one more field appends its bytes. */
  lemma {:induction false} MessageSnoc(fields: seq<Field>, f: Field)
    ensures Message(fields + [f]) == Message(fields) + FieldBytes(f)
    decreases |fields|
  {
    if fields == [] {
      assert (fields + [f])[1..] == [];
      assert FieldBytes(f) + [] == [] + FieldBytes(f);
    } else {
      MessageSnoc(fields[1..], f);
      assert (fields + [f])[1..] == fields[1..] + [f];
      RegroupTwo(FieldBytes(fields[0]), Message(fields[1..]), FieldBytes(f));
    }
  }

  /** Whatever follows, the fields written are the fields read. */
  lemma {:induction false} FieldsRead(fields: seq<Field>, suffix: Bytes)
    ensures ReadFields(Message(fields) + suffix, |fields|) == Some((fields, suffix))
    decreases |fields|
  {
    if fields == [] {
      assert Message(fields) + suffix == suffix;
    } else {
      var head, rest := FieldBytes(fields[0]), Message(fields[1..]);
      assert Message(fields) + suffix == head + (rest + suffix);
      FieldReads(fields[0], rest + suffix);
      FieldsRead(fields[1..], suffix);
      assert fields == [fields[0]] + fields[1..];
    }
  }

  lemma {:induction false} MessageReads(fields: seq<Field>)
    ensures ReadMessage(Message(fields)) == Some(fields)
    decreases |fields|
  {
    if fields != [] {
      FieldReads(fields[0], Message(fields[1..]));
      MessageReads(fields[1..]);
      assert fields == [fields[0]] + fields[1..];
    }
  }

  // ---- the registry's payloads --------------------------------------------

  datatype Package = Package(name: Bytes, versions: seq<Bytes>)

  /** "registry" in ASCII. */
  const REGISTRY: Bytes := [114, 101, 103, 105, 115, 116, 114, 121]

  function VersionFields(versions: seq<Bytes>): seq<Field> {
    seq(|versions|, i requires 0 <= i < |versions| => Blob(2, versions[i]))
  }

  function PackageBytes(p: Package): Bytes {
    Message([Blob(1, p.name)] + VersionFields(p.versions))
  }

  function PackageFields(packages: seq<Package>): seq<Field> {
    seq(|packages|, i requires 0 <= i < |packages| => Blob(2, PackageBytes(packages[i])))
  }

  function VersionsPayload(packages: seq<Package>): Bytes {
    Message([Blob(1, REGISTRY)] + PackageFields(packages))
  }

  function NameBytes(now: int, name: Bytes): Bytes
    requires -0x8000_0000_0000_0000 <= now < 0x8000_0000_0000_0000
  {
    Message([Blob(1, name), Blob(2, Message([Number(1, AsU64(now)), Number(2, 0)]))])
  }

  function NameFields(now: int, names: seq<Bytes>): seq<Field>
    requires -0x8000_0000_0000_0000 <= now < 0x8000_0000_0000_0000
  {
    seq(|names|, i requires 0 <= i < |names| => Blob(2, NameBytes(now, names[i])))
  }

  function NamesPayload(now: int, names: seq<Bytes>): Bytes
    requires -0x8000_0000_0000_0000 <= now < 0x8000_0000_0000_0000
  {
    Message([Blob(1, REGISTRY)] + NameFields(now, names))
  }

  function Envelope(payload: Bytes, signature: Bytes): Bytes {
    Message([Blob(1, payload), Blob(2, signature)])
  }

  /** The values of the length-delimited fields with one number, in order. */
  function BlobsOf(fields: seq<Field>, number: nat): seq<Bytes>
    decreases |fields|
  {
    if fields == [] then []
    else
      var last := |fields| - 1;
      BlobsOf(fields[..last], number)
      + (if fields[last].Blob? && fields[last].number == number then [fields[last].bytes] else [])
  }

  function ReadPackage(s: Bytes): Option<Package> {
    match ReadMessage(s)
    case None => None
    case Some(fs) => if |BlobsOf(fs, 1)| == 1 then Some(Package(BlobsOf(fs, 1)[0], BlobsOf(fs, 2))) else None
  }

  function ReadPackages(blobs: seq<Bytes>): Option<seq<Package>>
    decreases |blobs|
  {
    if blobs == [] then Some([])
    else
      match ReadPackage(blobs[0])
      case None => None
      case Some(p) =>
        match ReadPackages(blobs[1..])
        case None => None
        case Some(ps) => Some([p] + ps)
  }

  function ReadVersions(payload: Bytes): Option<seq<Package>> {
    match ReadMessage(payload)
    case None => None
    case Some(fs) => ReadPackages(BlobsOf(fs, 2))
  }

  /** A repeated field after one other field is read back whole. */
  lemma {:induction false} RepeatedBlobs(first: Field, number: nat, values: seq<Bytes>, fields: seq<Field>)
    requires first.Blob? && first.number != number && |fields| == |values|
    requires forall i :: 0 <= i < |values| ==> fields[i] == Blob(number, values[i])
    ensures BlobsOf([first] + fields, number) == values
    ensures BlobsOf([first] + fields, first.number) == [first.bytes]
    decreases |values|
  {
    var all := [first] + fields;
    var last := |all| - 1;
    if values == [] {
      assert all[..last] == [];
    } else {
      assert all[..last] == [first] + fields[..last - 1];
      RepeatedBlobs(first, number, values[..last - 1], fields[..last - 1]);
      assert all[last] == Blob(number, values[last - 1]);
    }
  }

  lemma PackageReads(p: Package)
    ensures ReadPackage(PackageBytes(p)) == Some(p)
  {
    var fields := [Blob(1, p.name)] + VersionFields(p.versions);
    MessageReads(fields);
    RepeatedBlobs(Blob(1, p.name), 2, p.versions, VersionFields(p.versions));
  }

  lemma {:induction false} PackagesRead(packages: seq<Package>, blobs: seq<Bytes>)
    requires |blobs| == |packages| && forall i :: 0 <= i < |blobs| ==> blobs[i] == PackageBytes(packages[i])
    ensures ReadPackages(blobs) == Some(packages)
    decreases |blobs|
  {
    if blobs != [] {
      PackageReads(packages[0]);
      PackagesRead(packages[1..], blobs[1..]);
      assert packages == [packages[0]] + packages[1..];
    }
  }

  /** Field by field: the registry's name, then one message a package, each its
      name and then its versions. */
  lemma VersionsFields(packages: seq<Package>, i: nat)
    requires i < |packages|
    ensures var m := ReadMessage(VersionsPayload(packages));
      && m.Some? && |m.value| == |packages| + 1
      && m.value[0] == Blob(1, [114, 101, 103, 105, 115, 116, 114, 121])
      && m.value[i + 1].Blob? && m.value[i + 1].number == 2
      && var p := ReadMessage(m.value[i + 1].bytes);
      && p.Some? && |p.value| == |packages[i].versions| + 1 && p.value[0] == Blob(1, packages[i].name)
      && forall j :: 0 <= j < |packages[i].versions| ==> p.value[j + 1] == Blob(2, packages[i].versions[j])
  {
    MessageReads([Blob(1, REGISTRY)] + PackageFields(packages));
    MessageReads([Blob(1, packages[i].name)] + VersionFields(packages[i].versions));
  }

  /** The versions payload gives back every package with its versions. */
  lemma VersionsRoundTrip(packages: seq<Package>)
    ensures ReadVersions(VersionsPayload(packages)) == Some(packages)
  {
    var blobs := seq(|packages|, i requires 0 <= i < |packages| => PackageBytes(packages[i]));
    MessageReads([Blob(1, REGISTRY)] + PackageFields(packages));
    RepeatedBlobs(Blob(1, REGISTRY), 2, blobs, PackageFields(packages));
    PackagesRead(packages, blobs);
  }

  /** The envelope gives back payload and signature, whatever bytes they hold. */
  lemma EnvelopeRoundTrip(payload: Bytes, signature: Bytes)
    ensures ReadMessage(Envelope(payload, signature)) == Some([Blob(1, payload), Blob(2, signature)])
  {
    MessageReads([Blob(1, payload), Blob(2, signature)]);
  }

  /** The names payload gives back each name with the time it was stamped. */
  lemma NamesRoundTrip(now: int, names: seq<Bytes>)
    requires -0x8000_0000_0000_0000 <= now < 0x8000_0000_0000_0000
    ensures ReadMessage(NamesPayload(now, names)).Some?
    ensures var blobs := BlobsOf(ReadMessage(NamesPayload(now, names)).value, 2);
      && |blobs| == |names|
      && forall i :: 0 <= i < |names| ==>
           && ReadMessage(blobs[i]) == Some([Blob(1, names[i]), Blob(2, Message([Number(1, AsU64(now)), Number(2, 0)]))])
           && ReadMessage(Message([Number(1, AsU64(now)), Number(2, 0)])) == Some([Number(1, AsU64(now)), Number(2, 0)])
  {
    var blobs := seq(|names|, i requires 0 <= i < |names| => NameBytes(now, names[i]));
    MessageReads([Blob(1, REGISTRY)] + NameFields(now, names));
    RepeatedBlobs(Blob(1, REGISTRY), 2, blobs, NameFields(now, names));
    var ts := [Number(1, AsU64(now)), Number(2, 0)];
    MessageReads(ts);
    forall i | 0 <= i < |names|
      ensures ReadMessage(blobs[i]) == Some([Blob(1, names[i]), Blob(2, Message(ts))])
    {
      MessageReads([Blob(1, names[i]), Blob(2, Message(ts))]);
    }
  }

  // ---- the writer ---------------------------------------------------------

  /** The value is a u64; the loop is right for any natural number. */
  method PbVarint(value: nat, out: Bytes) returns (written: Bytes)
    ensures written == out + Varint(value)
  {
    var n: nat := value;
    written := out;
    while true
      invariant written + Varint(n) == out + Varint(value)
      decreases n
    {
      var b := n % 128;
      var rest := n / 128;
      if rest != 0 {
        b := b + 128;
      }
      written := written + [b];
      if rest == 0 {
        break;
      }
      n := rest;
    }
  }

  method PbTag(field: nat, wire: nat, out: Bytes) returns (written: Bytes)
    requires wire < 8
    ensures written == out + Varint(field * 8 + wire)
  {
    written := PbVarint(field * 8 + wire, out);
  }

  method PbBytes(out: Bytes, field: nat, value: Bytes) returns (written: Bytes)
    ensures written == out + FieldBytes(Blob(field, value))
  {
    written := PbTag(field, 2, out);
    written := PbVarint(|value|, written);
    Regroup(out, Varint(field * 8 + 2), Varint(|value|), value);
    written := written + value;
  }

  method PbInt64(out: Bytes, field: nat, value: int) returns (written: Bytes)
    requires -0x8000_0000_0000_0000 <= value < 0x8000_0000_0000_0000
    ensures written == out + FieldBytes(Number(field, AsU64(value)))
  {
    written := PbTag(field, 0, out);
    written := PbVarint(AsU64(value), written);
    RegroupTwo(out, Varint(field * 8), Varint(AsU64(value)));
  }

  lemma MessageSnocAfter(first: Field, fields: seq<Field>, f: Field)
    ensures Message([first] + (fields + [f])) == Message([first] + fields) + FieldBytes(f)
  {
    assert [first] + (fields + [f]) == ([first] + fields) + [f];
    MessageSnoc([first] + fields, f);
  }

  lemma VersionFieldsSnoc(versions: seq<Bytes>, j: nat)
    requires j < |versions|
    ensures VersionFields(versions[..j + 1]) == VersionFields(versions[..j]) + [Blob(2, versions[j])]
  {
  }

  lemma VersionSnoc(first: Field, p: Package, j: nat)
    requires j < |p.versions|
    ensures Message([first] + VersionFields(p.versions[..j + 1]))
         == Message([first] + VersionFields(p.versions[..j])) + FieldBytes(Blob(2, p.versions[j]))
  {
    VersionFieldsSnoc(p.versions, j);
    MessageSnocAfter(first, VersionFields(p.versions[..j]), Blob(2, p.versions[j]));
  }

  /** A message of one field. */
  lemma MessageOf(f: Field)
    ensures Message([f]) == [] + FieldBytes(f)
  {
    MessageSnoc([], f);
  }

  method EncodePackage(p: Package) returns (pkg: Bytes)
    ensures pkg == PackageBytes(p)
  {
    pkg := PbBytes([], 1, p.name);
    ghost var first := Blob(1, p.name);
    MessageOf(first);
    assert [first] + VersionFields([]) == [first];
    for j := 0 to |p.versions|
      invariant pkg == Message([first] + VersionFields(p.versions[..j]))
    {
      VersionSnoc(first, p, j);
      pkg := PbBytes(pkg, 2, p.versions[j]);
    }
    assert p.versions[..|p.versions|] == p.versions;
  }

  lemma PackageFieldsSnoc(packages: seq<Package>, i: nat)
    requires i < |packages|
    ensures PackageFields(packages[..i + 1]) == PackageFields(packages[..i]) + [Blob(2, PackageBytes(packages[i]))]
  {
  }

  lemma PackageSnoc(first: Field, packages: seq<Package>, i: nat)
    requires i < |packages|
    ensures Message([first] + PackageFields(packages[..i + 1]))
         == Message([first] + PackageFields(packages[..i])) + FieldBytes(Blob(2, PackageBytes(packages[i])))
  {
    PackageFieldsSnoc(packages, i);
    MessageSnocAfter(first, PackageFields(packages[..i]), Blob(2, PackageBytes(packages[i])));
  }

  method Versions(packages: seq<Package>) returns (payload: Bytes)
    ensures payload == VersionsPayload(packages)
  {
    payload := PbBytes([], 1, REGISTRY);
    ghost var first := Blob(1, REGISTRY);
    MessageOf(first);
    assert [first] + PackageFields([]) == [first];
    for i := 0 to |packages|
      invariant payload == Message([first] + PackageFields(packages[..i]))
    {
      PackageSnoc(first, packages, i);
      var pkg := EncodePackage(packages[i]);
      payload := PbBytes(payload, 2, pkg);
    }
    assert packages[..|packages|] == packages;
  }

  /** One name with the time it was stamped. */
  method EncodeName(now: int, name: Bytes) returns (pkg: Bytes)
    requires -0x8000_0000_0000_0000 <= now < 0x8000_0000_0000_0000
    ensures pkg == NameBytes(now, name)
  {
    pkg := PbBytes([], 1, name);
    var ts := PbInt64([], 1, now);
    ts := PbInt64(ts, 2, 0);
    TwoFields(Number(1, AsU64(now)), Number(2, 0));
    TwoFields(Blob(1, name), Blob(2, ts));
    pkg := PbBytes(pkg, 2, ts);
  }

  lemma TwoFields(a: Field, b: Field)
    ensures Message([a, b]) == [] + FieldBytes(a) + FieldBytes(b)
  {
    MessageOf(a);
    MessageSnoc([a], b);
    assert [a, b] == [a] + [b];
  }

  lemma NameSnoc(first: Field, now: int, names: seq<Bytes>, i: nat)
    requires -0x8000_0000_0000_0000 <= now < 0x8000_0000_0000_0000 && i < |names|
    ensures Message([first] + NameFields(now, names[..i + 1]))
         == Message([first] + NameFields(now, names[..i])) + FieldBytes(Blob(2, NameBytes(now, names[i])))
  {
    NameFieldsSnoc(now, names, i);
    MessageSnocAfter(first, NameFields(now, names[..i]), Blob(2, NameBytes(now, names[i])));
  }

  lemma NameFieldsSnoc(now: int, names: seq<Bytes>, i: nat)
    requires -0x8000_0000_0000_0000 <= now < 0x8000_0000_0000_0000 && i < |names|
    ensures NameFields(now, names[..i + 1]) == NameFields(now, names[..i]) + [Blob(2, NameBytes(now, names[i]))]
  {
    var more, less, last := NameFields(now, names[..i + 1]), NameFields(now, names[..i]), Blob(2, NameBytes(now, names[i]));
    assert forall k :: 0 <= k < i ==> names[..i + 1][k] == names[..i][k] == names[k];
    assert |more| == i + 1 && more[i] == last;
    assert more[..i] == less;
    SnocIs(more, less, last);
  }

  lemma SnocIs(more: seq<Field>, less: seq<Field>, last: Field)
    requires |more| == |less| + 1 && more[..|less|] == less && more[|less|] == last
    ensures more == less + [last]
  {
  }

  method Names(now: int, names: seq<Bytes>) returns (payload: Bytes)
    requires -0x8000_0000_0000_0000 <= now < 0x8000_0000_0000_0000
    ensures payload == NamesPayload(now, names)
  {
    payload := PbBytes([], 1, REGISTRY);
    ghost var first := Blob(1, REGISTRY);
    MessageOf(first);
    assert [first] + NameFields(now, []) == [first];
    for i := 0 to |names|
      invariant payload == Message([first] + NameFields(now, names[..i]))
    {
      NameSnoc(first, now, names, i);
      var pkg := EncodeName(now, names[i]);
      payload := PbBytes(payload, 2, pkg);
    }
    assert names[..|names|] == names;
  }

  method SignedEnvelope(payload: Bytes, signature: Bytes) returns (signed: Bytes)
    ensures signed == Envelope(payload, signature)
    ensures ReadMessage(signed) == Some([Blob(1, payload), Blob(2, signature)])
  {
    signed := PbBytes([], 1, payload);
    signed := PbBytes(signed, 2, signature);
    MessageSnoc([], Blob(1, payload));
    MessageSnoc([Blob(1, payload)], Blob(2, signature));
    EnvelopeRoundTrip(payload, signature);
  }
}
