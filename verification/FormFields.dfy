/** Which parts of a form carry a field name: what the header search finds on
    Content-Disposition lines, against the names they declare. */
module FormFields {
  import opened Common
  import opened Multipart

  const EQUALS: Byte := 61
  const MARK: Byte := 34
  /** "Content-Disposition: form-data; " and "; file", in ASCII. */
  const FORM_DATA: Bytes := [67, 111, 110, 116, 101, 110, 116, 45, 68, 105, 115, 112, 111, 115, 105, 116, 105, 111, 110, 58, 32, 102, 111, 114, 109, 45, 100, 97, 116, 97, 59, 32]
  const FILE: Bytes := [59, 32, 102, 105, 108, 101]

  /** The name and file name a part declares. */
  datatype Disposition = Disposition(name: Bytes, filename: Option<Bytes>)

  function Parameter(value: Bytes): Bytes { NAME + (QUOTE + (value + QUOTE)) }

  function DispositionLine(d: Disposition): Bytes {
    FORM_DATA + (Parameter(d.name) + (if d.filename.Some? then FILE + Parameter(d.filename.value) else []))
  }

  /** No quote, equals sign or line end. */
  ghost predicate PlainValue(s: Bytes) {
    forall i :: 0 <= i < |s| ==> s[i] != MARK && s[i] != EQUALS && !IsNewline(s[i])
  }

  ghost predicate Occurs(s: Bytes, needle: Bytes) {
    exists i :: OccursAt(s, needle, i)
  }

  lemma {:induction false} FindFromNone(s: Bytes, needle: Bytes, i: nat, k: nat)
    requires FindFrom(s, needle, i).None? && i <= k
    ensures !OccursAt(s, needle, k)
    decreases |s| - i
  {
    if i + |needle| <= |s| && i < k { FindFromNone(s, needle, i + 1, k); }
  }

  lemma FindIsOccurs(s: Bytes, needle: Bytes)
    requires needle != []
    ensures Find(s, needle).Some? <==> Occurs(s, needle)
  {
    if Find(s, needle).Some? { FindFromSome(s, needle, 0); }
    if Occurs(s, needle) && Find(s, needle).None? {
      var k :| OccursAt(s, needle, k);
      FindFromNone(s, needle, 0, k);
    }
  }

  lemma OccursWithin(before: Bytes, s: Bytes, after: Bytes, needle: Bytes, i: int)
    requires OccursAt(s, needle, i)
    ensures OccursAt(before + s + after, needle, |before| + i)
  {
    var at := |before| + i;
    assert (before + s + after)[at..at + |needle|] == s[i..i + |needle|];
  }

  /** The header search finds `name=` and the field, in double quotes or as it
      stands, anywhere in the headers. */
  lemma HeaderFound(headers: Bytes, field: Bytes)
    ensures FindHeader(headers, field) <==>
      Occurs(headers, [110, 97, 109, 101, 61, 34] + field + [34]) || Occurs(headers, [110, 97, 109, 101, 61] + field)
  {
    assert NAME + QUOTE == [110, 97, 109, 101, 61, 34];
    FindIsOccurs(headers, NAME + QUOTE + field + QUOTE);
    FindIsOccurs(headers, NAME + field);
  }

  /** Text without a line end occurs inside one line, or in the rest. */
  lemma OccursInLine(line: Bytes, rest: Bytes, needle: Bytes)
    requires needle != [] && NoNewline(needle) && (rest == [] || rest[0] == CR)
    ensures Occurs(CRLF + line + rest, needle) <==> Occurs(line, needle) || Occurs(rest, needle)
  {
    var s := CRLF + line + rest;
    if Occurs(line, needle) {
      var i :| OccursAt(line, needle, i);
      OccursWithin(CRLF, line, rest, needle, i);
    }
    if Occurs(rest, needle) {
      var i :| OccursAt(rest, needle, i);
      OccursWithin(CRLF + line, rest, [], needle, i);
      assert s + [] == s;
    }
    if Occurs(s, needle) {
      var i :| OccursAt(s, needle, i);
      OccursOneSide(line, rest, needle, i);
    }
  }

  lemma OccursOneSide(line: Bytes, rest: Bytes, needle: Bytes, i: int)
    requires needle != [] && NoNewline(needle) && (rest == [] || rest[0] == CR) && OccursAt(CRLF + line + rest, needle, i)
    ensures Occurs(line, needle) || Occurs(rest, needle)
  {
    var s, end := CRLF + line + rest, 2 + |line|;
    assert s[0] == CR && s[1] == LF;
    InsidePlain(s, needle, i);
    if i >= end {
      OccursOnlyIn(CRLF + line, rest, [], needle, i - end);
    } else {
      assert rest != [] ==> s[end] == rest[0];
      OccursOnlyIn(CRLF, line, rest, needle, i - 2);
    }
  }

  /** A needle without a line end does not reach over one. */
  lemma InsidePlain(s: Bytes, needle: Bytes, i: int)
    requires NoNewline(needle) && OccursAt(s, needle, i)
    ensures forall k :: i <= k < i + |needle| ==> !IsNewline(s[k])
  {
    forall k | i <= k < i + |needle|
      ensures !IsNewline(s[k])
    {
      assert s[i..i + |needle|][k - i] == s[k];
    }
  }

  lemma OccursOnlyIn(before: Bytes, s: Bytes, after: Bytes, needle: Bytes, i: int)
    requires 0 <= i && i + |needle| <= |s| && OccursAt(before + s + after, needle, |before| + i)
    ensures OccursAt(s, needle, i)
  {
    var at := |before| + i;
    assert (before + s + after)[at..at + |needle|] == s[i..i + |needle|];
  }

  lemma {:induction false} OccursInBlock(lines: seq<Bytes>, needle: Bytes)
    requires needle != [] && NoNewline(needle)
    ensures Occurs(HeaderBlock(lines), needle) <==> exists k :: 0 <= k < |lines| && Occurs(lines[k], needle)
  {
    if lines == [] {
      assert !Occurs([], needle);
    } else {
      OccursInLine(lines[0], HeaderBlock(lines[1..]), needle);
      OccursInBlock(lines[1..], needle);
      if k :| 0 <= k < |lines[1..]| && Occurs(lines[1..][k], needle) { assert lines[k + 1] == lines[1..][k]; }
      if k :| 0 <= k < |lines| && Occurs(lines[k], needle) { assert k > 0 ==> lines[1..][k - 1] == lines[k]; }
    }
  }

  // ---- the disposition line ---------------------------------------------------------

  /** Where the second parameter starts. */
  function FileAt(d: Disposition): nat {
    |FORM_DATA| + |Parameter(d.name)| + |FILE|
  }

  lemma ParameterEquals(value: Bytes, k: nat)
    requires PlainValue(value) && k < |Parameter(value)|
    ensures Parameter(value)[k] == EQUALS <==> k == 4
  {
  }

  /** The byte at a position of the line. */
  lemma LineAt(d: Disposition, k: nat)
    requires k < |DispositionLine(d)|
    ensures var n, m := |FORM_DATA|, |FORM_DATA| + |Parameter(d.name)|;
      && (k < n ==> DispositionLine(d)[k] == FORM_DATA[k])
      && (n <= k < m ==> DispositionLine(d)[k] == Parameter(d.name)[k - n])
      && (k >= m ==> d.filename.Some?)
      && (m <= k < FileAt(d) ==> DispositionLine(d)[k] == FILE[k - m])
      && (k >= FileAt(d) ==> k - FileAt(d) < |Parameter(d.filename.value)| && DispositionLine(d)[k] == Parameter(d.filename.value)[k - FileAt(d)])
  {
  }

  lemma NoEquals(k: nat)
    ensures k < |FORM_DATA| ==> FORM_DATA[k] != EQUALS
    ensures k < |FILE| ==> FILE[k] != EQUALS
  {
  }

  /** The parameters start after the equals signs of the line, and nowhere else. */
  lemma NameOccurs(d: Disposition, i: nat)
    requires PlainValue(d.name) && (d.filename.Some? ==> PlainValue(d.filename.value))
    requires OccursAt(DispositionLine(d), NAME, i)
    ensures i == |FORM_DATA| || (d.filename.Some? && i == FileAt(d))
  {
    var k := i + 4;
    assert DispositionLine(d)[k] == EQUALS by { assert DispositionLine(d)[i..i + 5][4] == EQUALS; }
    EqualsPlace(d, k);
  }

  lemma EqualsPlace(d: Disposition, k: nat)
    requires PlainValue(d.name) && (d.filename.Some? ==> PlainValue(d.filename.value))
    requires k < |DispositionLine(d)| && DispositionLine(d)[k] == EQUALS
    ensures k == |FORM_DATA| + 4 || (d.filename.Some? && k == FileAt(d) + 4)
  {
    var n, m := |FORM_DATA|, |FORM_DATA| + |Parameter(d.name)|;
    LineAt(d, k);
    if k < n {
      NoEquals(k);
    } else if k < m {
      ParameterEquals(d.name, k - n);
    } else if k < FileAt(d) {
      NoEquals(k - m);
    } else {
      ParameterEquals(d.filename.value, k - FileAt(d));
    }
  }

  lemma QuotedPrefix(field: Bytes, value: Bytes, rest: Bytes)
    requires MARK !in field && MARK !in value
    ensures field + QUOTE <= value + (QUOTE + rest) <==> field == value
  {
    var s := value + (QUOTE + rest);
    if field + QUOTE <= s {
      assert s[|field|] == MARK && s[|value|] == MARK;
      assert |field| <= |value|;
      assert |value| <= |field|;
      assert s[..|field|] == field && s[..|value|] == value;
    }
    if field == value {
      assert s[..|field| + 1] == field + QUOTE;
    }
  }

  /** At a parameter, the quoted needle matches exactly its value, and the bare
      needle only if it is empty. */
  lemma ParameterMatches(field: Bytes, value: Bytes, rest: Bytes)
    requires MARK !in field && MARK !in value
    ensures NAME + QUOTE + field + QUOTE <= Parameter(value) + rest <==> field == value
    ensures NAME + field <= Parameter(value) + rest <==> field == []
  {
    var s, tail := Parameter(value) + rest, value + (QUOTE + rest);
    assert s == NAME + (QUOTE + tail);
    assert NAME + QUOTE + field + QUOTE == NAME + (QUOTE + (field + QUOTE));
    QuotedPrefix(field, value, rest);
    assert s[6..] == tail && s[..6] == NAME + QUOTE;
    if field + QUOTE <= tail { assert s[..6 + |field| + 1] == NAME + (QUOTE + (field + QUOTE)); }
    if NAME + (QUOTE + (field + QUOTE)) <= s { assert tail[..|field| + 1] == field + QUOTE; }
    assert s[..5] == NAME && s[5] == MARK;
    assert field != [] ==> (NAME + field)[5] == field[0] && field[0] in field;
  }

  lemma OccursAtPrefix(s: Bytes, needle: Bytes, i: nat)
    requires i <= |s|
    ensures OccursAt(s, needle, i) <==> needle <= s[i..]
  {
    if OccursAt(s, needle, i) { assert s[i..][..|needle|] == needle; }
    if needle <= s[i..] { assert s[i..i + |needle|] == s[i..][..|needle|]; }
  }

  /** The needles the search looks for, quoted first. */
  function Quoted(field: Bytes): Bytes { NAME + QUOTE + field + QUOTE }
  function Bare(field: Bytes): Bytes { NAME + field }

  /** The two places of a line where a needle can be. */
  lemma NeedleOccurs(d: Disposition, needle: Bytes)
    requires PlainValue(d.name) && (d.filename.Some? ==> PlainValue(d.filename.value)) && NAME <= needle
    ensures var s := DispositionLine(d);
      Occurs(s, needle) <==> OccursAt(s, needle, |FORM_DATA|) || (d.filename.Some? && OccursAt(s, needle, FileAt(d)))
  {
    var s := DispositionLine(d);
    forall i: int | OccursAt(s, needle, i)
      ensures i == |FORM_DATA| || (d.filename.Some? && i == FileAt(d))
    {
      assert s[i..i + |needle|][..5] == s[i..i + 5];
      NameOccurs(d, i);
    }
  }

  lemma LineCarries(d: Disposition, field: Bytes)
    requires PlainValue(d.name) && (d.filename.Some? ==> PlainValue(d.filename.value)) && PlainValue(field)
    ensures Occurs(DispositionLine(d), Quoted(field)) <==> field == d.name || d.filename == Some(field)
    ensures Occurs(DispositionLine(d), Bare(field)) <==> field == []
  {
    var s := DispositionLine(d);
    var tail := if d.filename.Some? then FILE + Parameter(d.filename.value) else [];
    assert s[|FORM_DATA|..] == Parameter(d.name) + tail;
    NeedleOccurs(d, Quoted(field));
    NeedleOccurs(d, Bare(field));
    OccursAtPrefix(s, Quoted(field), |FORM_DATA|);
    OccursAtPrefix(s, Bare(field), |FORM_DATA|);
    ParameterMatches(field, d.name, tail);
    if d.filename.Some? {
      var value := d.filename.value;
      assert s[FileAt(d)..] == Parameter(value) + [];
      OccursAtPrefix(s, Quoted(field), FileAt(d));
      OccursAtPrefix(s, Bare(field), FileAt(d));
      ParameterMatches(field, value, []);
    }
  }

  /** A part of a form: its disposition among other header lines, and content. */
  datatype FormPart = FormPart(before: seq<Bytes>, disposition: Disposition, after: seq<Bytes>, content: Bytes)

  function HeaderLines(p: FormPart): seq<Bytes> { p.before + [DispositionLine(p.disposition)] + p.after }

  function PartOf(p: FormPart): Part { Part(HeaderLines(p), p.content) }

  /** The values are plain, and no other line says `name=`. */
  ghost predicate PlainForm(p: FormPart) {
    && PlainValue(p.disposition.name) && (p.disposition.filename.Some? ==> PlainValue(p.disposition.filename.value))
    && (forall l :: l in p.before || l in p.after ==> !Occurs(l, NAME))
  }

  lemma NameInNeedle(s: Bytes, needle: Bytes)
    requires NAME <= needle && Occurs(s, needle)
    ensures Occurs(s, NAME)
  {
    var i :| OccursAt(s, needle, i);
    assert s[i..i + |needle|][..5] == s[i..i + 5];
    assert OccursAt(s, NAME, i);
  }

  /** Only the disposition line can hold a needle. */
  lemma BlockCarries(p: FormPart, needle: Bytes)
    requires PlainForm(p) && NAME <= needle && NoNewline(needle)
    ensures Occurs(HeaderBlock(HeaderLines(p)), needle) <==> Occurs(DispositionLine(p.disposition), needle)
  {
    var lines, at := HeaderLines(p), |p.before|;
    OccursInBlock(lines, needle);
    assert lines[at] == DispositionLine(p.disposition);
    forall k | 0 <= k < |lines| && k != at
      ensures !Occurs(lines[k], needle)
    {
      assert lines[k] in p.before || lines[k] in p.after;
      if Occurs(lines[k], needle) { NameInNeedle(lines[k], needle); }
    }
  }

  /** The search takes a part for the field exactly when the part declares that
      name, or a file of that name, or the field name is empty. */
  lemma PartCarries(p: FormPart, field: Bytes)
    requires PlainForm(p) && PlainValue(field)
    ensures FindHeader(HeaderBlock(HeaderLines(p)), field) <==>
      field == p.disposition.name || p.disposition.filename == Some(field) || field == []
  {
    var block := HeaderBlock(HeaderLines(p));
    assert NoNewline(Quoted(field)) && NoNewline(Bare(field));
    FindIsOccurs(block, Quoted(field));
    FindIsOccurs(block, Bare(field));
    BlockCarries(p, Quoted(field));
    BlockCarries(p, Bare(field));
    LineCarries(p.disposition, field);
  }

  function PartsOf(ps: seq<FormPart>): seq<Part> {
    if ps == [] then [] else [PartOf(ps[0])] + PartsOf(ps[1..])
  }

  /** The content of the first part that declares the name. */
  function FirstNamed(ps: seq<FormPart>, field: Bytes): Option<Bytes> {
    if ps == [] then None
    else if ps[0].disposition.name == field then Some(Strip(ps[0].content))
    else FirstNamed(ps[1..], field)
  }

  lemma {:induction false} CarryingIsNamed(ps: seq<FormPart>, field: Bytes)
    requires PlainValue(field) && field != []
    requires forall p :: p in ps ==> PlainForm(p) && p.disposition.filename != Some(field)
    ensures FirstCarrying(PartsOf(ps), field) == FirstNamed(ps, field)
  {
    if ps != [] {
      assert ps[0] in ps;
      PartCarries(ps[0], field);
      CarryingIsNamed(ps[1..], field);
      assert PartsOf(ps)[1..] == PartsOf(ps[1..]);
    }
  }

  /** So from an encoded form the extraction gives the first part that declares
      the field name, as long as no file is called that. */
  lemma NamedFieldExtracted(ps: seq<FormPart>, boundary: Bytes, epilogue: Bytes, field: Bytes)
    requires PlainValue(field) && field != [] && NoNewline(boundary)
    requires forall p :: p in ps ==> PlainForm(p) && p.disposition.filename != Some(field)
    requires forall i :: 0 <= i < |PartsOf(ps)| ==> WellFormed(PartsOf(ps)[i], DASHES + boundary)
    ensures Extract(Encode(PartsOf(ps), boundary, epilogue), DASHES + boundary, field) == FirstNamed(ps, field)
  {
    EncodedFieldExtracted(PartsOf(ps), boundary, epilogue, field);
    CarryingIsNamed(ps, field);
  }
}
