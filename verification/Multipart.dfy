/** Field extraction from a multipart body, against the body syntax of
    section 5.1.1 of RFC 2046. */
module Multipart {
  import opened Common

  const CR: Byte := 13
  const LF: Byte := 10
  const DASH: Byte := 45
  const CRLF: Bytes := [CR, LF]
  const BLANK: Bytes := [CR, LF, CR, LF]
  const DASHES: Bytes := [DASH, DASH]
  /** `name=` and the double quote. */
  const NAME: Bytes := [110, 97, 109, 101, 61]
  const QUOTE: Bytes := [34]

  // ---- searching ----------------------------------------------------------

  predicate OccursAt(s: Bytes, needle: Bytes, i: int) {
    0 <= i <= |s| - |needle| && s[i..i + |needle|] == needle
  }

  function FindFrom(s: Bytes, needle: Bytes, i: nat): (r: Option<nat>)
    ensures r.Some? ==> r.value + |needle| <= |s|
    decreases |s| - i
  {
    if i + |needle| > |s| then None
    else if s[i..i + |needle|] == needle then Some(i)
    else FindFrom(s, needle, i + 1)
  }

  /** The first occurrence; an empty needle is never found. */
  function Find(s: Bytes, needle: Bytes): (r: Option<nat>)
    ensures r.Some? ==> r.value + |needle| <= |s|
  {
    if needle == [] then None else FindFrom(s, needle, 0)
  }

  lemma {:induction false} FindFromFirst(s: Bytes, needle: Bytes, i: nat, k: nat)
    requires i <= k && OccursAt(s, needle, k) && forall j :: i <= j < k ==> !OccursAt(s, needle, j)
    ensures FindFrom(s, needle, i) == Some(k)
    decreases |s| - i
  {
    if i < k {
      assert !OccursAt(s, needle, i);
      FindFromFirst(s, needle, i + 1, k);
    }
  }

  lemma {:induction false} FindFromSome(s: Bytes, needle: Bytes, i: nat)
    requires FindFrom(s, needle, i).Some?
    ensures var k := FindFrom(s, needle, i).value;
      i <= k && OccursAt(s, needle, k) && forall j :: i <= j < k ==> !OccursAt(s, needle, j)
    decreases |s| - i
  {
    if s[i..i + |needle|] != needle {
      FindFromSome(s, needle, i + 1);
    }
  }

  function FindHeader(headers: Bytes, field: Bytes): bool {
    Find(headers, NAME + QUOTE + field + QUOTE).Some? || Find(headers, NAME + field).Some?
  }

  predicate IsNewline(b: Byte) { b == CR || b == LF }

  /** `data` without its trailing CR and LF bytes. */
  function Strip(data: Bytes): (r: Bytes)
    ensures r <= data
    ensures r != [] ==> !IsNewline(r[|r| - 1])
    ensures forall i :: |r| <= i < |data| ==> IsNewline(data[i])
  {
    if data != [] && IsNewline(data[|data| - 1]) then Strip(data[..|data| - 1]) else data
  }

  // ---- the extraction -----------------------------------------------------

  /** What one turn of the search loop decides. */
  datatype Turn = Answer(r: Option<Bytes>) | Onward(rest: Bytes)

  /** A part's headers end at the first blank line, its content before the
      next delimiter. */
  function TurnOfPart(part: Bytes, delim: Bytes, field: Bytes): (t: Turn)
    ensures t.Onward? ==> |t.rest| <= |part|
  {
    match Find(part, BLANK)
    case None => Answer(None)
    case Some(end) =>
      var content := part[end + 4..];
      var next := match Find(content, delim) case Some(k) => k case None => |content|;
      if FindHeader(part[..end], field) then Answer(Some(Strip(content[..next])))
      else if next == 0 then Answer(None)
      else Onward(content[next..])
  }

  function NextTurn(rest: Bytes, delim: Bytes, field: Bytes): (t: Turn)
    requires delim != []
    ensures t.Onward? ==> |t.rest| < |rest|
  {
    match Find(rest, delim)
    case None => Answer(None)
    case Some(idx) =>
      var part := rest[idx + |delim|..];
      if DASHES <= part then Answer(None) else TurnOfPart(part, delim, field)
  }

  function Extract(rest: Bytes, delim: Bytes, field: Bytes): Option<Bytes>
    requires delim != []
    decreases |rest|
  {
    match NextTurn(rest, delim, field)
    case Answer(r) => r
    case Onward(more) => Extract(more, delim, field)
  }

  /** Ends on every input: each turn drops at least one delimiter. */
  method ExtractFieldWithBoundary(body: Bytes, boundary: Bytes, field: Bytes) returns (r: Option<Bytes>)
    ensures r == Extract(body, DASHES + boundary, field)
  {
    var delim := DASHES + boundary;
    var rest := body;
    while true
      invariant Extract(rest, delim, field) == Extract(body, delim, field)
      decreases |rest|
    {
      var turn := TakeTurn(rest, delim, field);
      match turn {
        case Answer(found) => return found;
        case Onward(more) => rest := more;
      }
    }
  }

  method TakeTurn(rest: Bytes, delim: Bytes, field: Bytes) returns (t: Turn)
    requires delim != []
    ensures t == NextTurn(rest, delim, field)
  {
    var idx := Find(rest, delim);
    if idx.None? {
      return Answer(None);
    }
    var part := rest[idx.value + |delim|..];
    if DASHES <= part {
      return Answer(None);
    }
    t := TakePart(part, delim, field);
  }

  method TakePart(part: Bytes, delim: Bytes, field: Bytes) returns (t: Turn)
    ensures t == TurnOfPart(part, delim, field)
  {
    var end := Find(part, BLANK);
    if end.None? {
      return Answer(None);
    }
    var headers, content := part[..end.value], part[end.value + 4..];
    var found := Find(content, delim);
    var next := if found.Some? then found.value else |content|;
    if FindHeader(headers, field) {
      var data := TrimLineEnds(content[..next]);
      return Answer(Some(data));
    }
    if next == 0 {
      return Answer(None);
    }
    t := Onward(content[next..]);
  }

  method TrimLineEnds(bytes: Bytes) returns (data: Bytes)
    ensures data == Strip(bytes)
  {
    data := bytes;
    while data != [] && IsNewline(data[|data| - 1])
      invariant Strip(data) == Strip(bytes)
    {
      data := data[..|data| - 1];
    }
  }

  // ---- the body syntax ----------------------------------------------------

  /** A body part: header lines and content. */
  datatype Part = Part(headers: seq<Bytes>, content: Bytes)

  function HeaderBlock(lines: seq<Bytes>): Bytes {
    if lines == [] then [] else CRLF + lines[0] + HeaderBlock(lines[1..])
  }

  /** What follows a delimiter: a part up to the next one, or the close. */
  function AfterDelimiter(parts: seq<Part>, delim: Bytes, epilogue: Bytes): Bytes {
    if parts == [] then DASHES + epilogue
    else HeaderBlock(parts[0].headers) + (BLANK + (parts[0].content + (CRLF + (delim + AfterDelimiter(parts[1..], delim, epilogue)))))
  }

  function Encode(parts: seq<Part>, boundary: Bytes, epilogue: Bytes): Bytes {
    (DASHES + boundary) + AfterDelimiter(parts, DASHES + boundary, epilogue)
  }

  ghost predicate NoNewline(s: Bytes) {
    forall i :: 0 <= i < |s| ==> !IsNewline(s[i])
  }

  /** Header lines are non-empty lines; the delimiter is not in the content. */
  ghost predicate WellFormed(p: Part, delim: Bytes) {
    && (forall i :: 0 <= i < |p.headers| ==> p.headers[i] != [] && NoNewline(p.headers[i]))
    && (forall j :: !OccursAt(p.content, delim, j))
  }

  /** The content of the first part whose headers carry the field name. */
  function FirstCarrying(parts: seq<Part>, field: Bytes): Option<Bytes> {
    if parts == [] then None
    else if FindHeader(HeaderBlock(parts[0].headers), field) then Some(Strip(parts[0].content))
    else FirstCarrying(parts[1..], field)
  }

  /** Nothing is found inside a prefix in which no occurrence starts. */
  lemma FindAfter(prefix: Bytes, rest: Bytes, needle: Bytes)
    requires needle != [] && Find(rest, needle).Some?
    requires forall j :: 0 <= j < |prefix| ==> !OccursAt(prefix + rest, needle, j)
    ensures Find(prefix + rest, needle) == Some(|prefix| + Find(rest, needle).value)
  {
    var s, n, k := prefix + rest, |prefix|, Find(rest, needle).value;
    FindFromSome(rest, needle, 0);
    assert s[n + k..n + k + |needle|] == rest[k..k + |needle|];
    forall j | 0 <= j < n + k
      ensures !OccursAt(s, needle, j)
    {
      if n <= j && j + |needle| <= |s| {
        assert s[j..j + |needle|] == rest[j - n..j - n + |needle|];
        assert !OccursAt(rest, needle, j - n);
      }
    }
    FindFromFirst(s, needle, 0, n + k);
  }

  lemma FindAtStart(needle: Bytes, rest: Bytes)
    requires needle != []
    ensures Find(needle + rest, needle) == Some(0)
  {
    assert (needle + rest)[0..|needle|] == needle;
    FindFromFirst(needle + rest, needle, 0, 0);
  }

  lemma NoBlankInLine(line: Bytes, tail: Bytes, j: nat)
    requires line != [] && NoNewline(line) && j < |CRLF + line|
    ensures !OccursAt((CRLF + line) + tail, BLANK, j)
  {
    var s := (CRLF + line) + tail;
    assert s[1] == LF && s[2] == line[0];
    if j + 4 <= |s| {
      assert s[j..j + 4][0] == s[j] && s[j..j + 4][2] == s[j + 2];
      assert j >= 2 ==> s[j] == line[j - 2];
    }
  }

  lemma NoDelimiterEarly(content: Bytes, delim: Bytes, tail: Bytes, j: nat)
    requires delim != [] && NoNewline(delim) && j < |content| + 2
    requires !OccursAt(content, delim, j)
    ensures !OccursAt((content + CRLF) + tail, delim, j)
  {
    var s, n := (content + CRLF) + tail, |delim|;
    if j + n <= |content| {
      assert s[j..j + n] == content[j..j + n];
    } else if j + n <= |s| {
      var at := if j <= |content| then |content| else j;
      assert s[j..j + n][at - j] == s[at] == (content + CRLF)[at];
    }
  }

  /** The blank line is found right after the header block. */
  lemma {:induction false} BlankFound(lines: seq<Bytes>, rest: Bytes)
    requires forall i :: 0 <= i < |lines| ==> lines[i] != [] && NoNewline(lines[i])
    ensures Find(HeaderBlock(lines) + (BLANK + rest), BLANK) == Some(|HeaderBlock(lines)|)
  {
    if lines == [] {
      FindAtStart(BLANK, rest);
      assert HeaderBlock(lines) + (BLANK + rest) == BLANK + rest;
    } else {
      var head, tail := CRLF + lines[0], HeaderBlock(lines[1..]) + (BLANK + rest);
      BlankFound(lines[1..], rest);
      var s := head + tail;
      assert HeaderBlock(lines) + (BLANK + rest) == s;
      forall j | 0 <= j < |head|
        ensures !OccursAt(s, BLANK, j)
      {
        NoBlankInLine(lines[0], tail, j);
      }
      FindAfter(head, tail, BLANK);
    }
  }

  /** The next delimiter is the one after the content's line end: none is in
      the content, and none straddles its end, having no CR or LF. */
  lemma DelimiterFound(content: Bytes, delim: Bytes, rest: Bytes)
    requires delim != [] && NoNewline(delim) && forall j :: !OccursAt(content, delim, j)
    ensures Find(content + (CRLF + (delim + rest)), delim) == Some(|content| + 2)
  {
    var head, tail := content + CRLF, delim + rest;
    var s := head + tail;
    assert content + (CRLF + (delim + rest)) == s;
    forall j | 0 <= j < |head|
      ensures !OccursAt(s, delim, j)
    {
      NoDelimiterEarly(content, delim, tail, j);
    }
    FindAtStart(delim, rest);
    FindAfter(head, tail, delim);
  }

  lemma StripLineEnd(content: Bytes)
    ensures Strip(content + CRLF) == Strip(content)
  {
    var s := content + CRLF;
    assert s[..|s| - 1] == content + [CR];
    assert (content + [CR])[..|content|] == content;
  }

  lemma TurnAt(part: Bytes, delim: Bytes, field: Bytes, end: nat, next: nat)
    requires Find(part, BLANK) == Some(end) && Find(part[end + 4..], delim) == Some(next) && next != 0
    ensures TurnOfPart(part, delim, field)
         == if FindHeader(part[..end], field) then Answer(Some(Strip(part[end + 4..][..next])))
            else Onward(part[end + 4..][next..])
  {
  }

  lemma PartSlices(block: Bytes, content: Bytes, more: Bytes)
    ensures var part := block + (BLANK + (content + (CRLF + more)));
      && part[..|block|] == block
      && part[|block| + 4..] == content + (CRLF + more)
      && part[|block| + 4..][..|content| + 2] == content + CRLF
      && part[|block| + 4..][|content| + 2..] == more
  {
    var tail := content + (CRLF + more);
    var part := block + (BLANK + tail);
    assert part[|block| + 4..] == tail;
    assert tail == (content + CRLF) + more;
  }

  /** One turn of the extraction, at a part that ends with a delimiter. */
  lemma PartTurn(p: Part, delim: Bytes, rest: Bytes, field: Bytes)
    requires delim != [] && NoNewline(delim) && WellFormed(p, delim)
    ensures TurnOfPart(HeaderBlock(p.headers) + (BLANK + (p.content + (CRLF + (delim + rest)))), delim, field)
         == if FindHeader(HeaderBlock(p.headers), field) then Answer(Some(Strip(p.content))) else Onward(delim + rest)
  {
    var block := HeaderBlock(p.headers);
    BlankFound(p.headers, p.content + (CRLF + (delim + rest)));
    PartSlices(block, p.content, delim + rest);
    DelimiterFound(p.content, delim, rest);
    TurnAt(block + (BLANK + (p.content + (CRLF + (delim + rest)))), delim, field, |block|, |p.content| + 2);
    StripLineEnd(p.content);
  }

  lemma AtDelimiter(delim: Bytes, part: Bytes, field: Bytes)
    requires delim != [] && part != [] && part[0] == CR
    ensures NextTurn(delim + part, delim, field) == TurnOfPart(part, delim, field)
  {
    FindAtStart(delim, part);
    assert (delim + part)[|delim|..] == part;
  }

  lemma {:induction false} ExtractParts(parts: seq<Part>, delim: Bytes, epilogue: Bytes, field: Bytes)
    requires delim != [] && NoNewline(delim)
    requires forall i :: 0 <= i < |parts| ==> WellFormed(parts[i], delim)
    ensures Extract(delim + AfterDelimiter(parts, delim, epilogue), delim, field) == FirstCarrying(parts, field)
  {
    if parts == [] {
      var after := DASHES + epilogue;
      FindAtStart(delim, after);
      assert (delim + after)[|delim|..] == after;
    } else {
      var rest := AfterDelimiter(parts[1..], delim, epilogue);
      StartsWithCr(parts[0].headers, parts[0].content + (CRLF + (delim + rest)));
      AtDelimiter(delim, AfterDelimiter(parts, delim, epilogue), field);
      PartTurn(parts[0], delim, rest, field);
      ExtractParts(parts[1..], delim, epilogue, field);
    }
  }

  lemma StartsWithCr(lines: seq<Bytes>, rest: Bytes)
    ensures (HeaderBlock(lines) + (BLANK + rest))[0] == CR
  {
  }

  /** Extraction from an encoded body gives the first part that carries the
      field, without trailing line ends, and nothing when no part does. */
  lemma EncodedFieldExtracted(parts: seq<Part>, boundary: Bytes, epilogue: Bytes, field: Bytes)
    requires NoNewline(boundary)
    requires forall i :: 0 <= i < |parts| ==> WellFormed(parts[i], DASHES + boundary)
    ensures Extract(Encode(parts, boundary, epilogue), DASHES + boundary, field) == FirstCarrying(parts, field)
  {
    ExtractParts(parts, DASHES + boundary, epilogue, field);
  }

  /** The content comes back unchanged exactly when it does not end in CR or LF. */
  lemma ContentUnchanged(content: Bytes)
    ensures Strip(content) == content <==> content == [] || !IsNewline(content[|content| - 1])
  {
  }
}
