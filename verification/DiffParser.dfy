/** The patch parser of the web frontend: splitting a patch into files, hunks
    and numbered lines. */
module DiffParser {
  import opened Common
  import opened UnifiedDiff

  datatype DiffLine = DiffLine(content: string, kind: Kind, oldLine: Option<nat>, newLine: Option<nat>)
  datatype Hunk = Hunk(header: string, left: Range, right: Range, lines: seq<DiffLine>)
  datatype DiffFile = DiffFile(oldFile: string, newFile: string, header: seq<string>, hunks: seq<Hunk>)

  const MARK := "diff --git "

  // ---- text -------------------------------------------------------------------

  /** The characters `^`, `$` and `.` of the expressions stop at. */
  predicate IsTerminator(c: char) {
    c == '\n' || c == '\r' || c == '\U{2028}' || c == '\U{2029}'
  }

  /** What trim() strips. */
  predicate IsSpace(c: char) {
    || IsTerminator(c) || c == ' ' || c == '\t' || c == '\U{B}' || c == '\U{C}' || c == '\U{A0}' || c == '\U{1680}'
    || '\U{2000}' <= c <= '\U{200A}' || c == '\U{202F}' || c == '\U{205F}' || c == '\U{3000}' || c == '\U{FEFF}'
  }

  predicate Blank(s: string) {
    forall i :: 0 <= i < |s| ==> IsSpace(s[i])
  }

  /** The pieces between the marks that open a line. `piece` is what is read of
      the current one, `opens` says that a line starts here. */
  function Chunks(rest: string, piece: string, opens: bool): seq<string>
    decreases |rest|
  {
    if rest == "" then [piece]
    else if opens && MARK <= rest then [piece] + Chunks(rest[|MARK|..], "", false)
    else Chunks(rest[1..], piece + [rest[0]], IsTerminator(rest[0]))
  }

  function Lines(rest: string, piece: string): seq<string>
    decreases |rest|
  {
    if rest == "" then [piece]
    else if rest[0] == '\n' then [piece] + Lines(rest[1..], "")
    else Lines(rest[1..], piece + [rest[0]])
  }

  // ---- the header expression ----------------------------------------------------

  /** How many characters come before the next terminator. */
  function Run(s: string): (n: nat)
    ensures n <= |s|
  {
    if s == "" || IsTerminator(s[0]) then 0 else 1 + Run(s[1..])
  }

  /** The shortest non-empty first name, from length `k` on, that a second one can follow. */
  function Names(s: string, k: nat): Option<(string, string)>
    requires k <= |s|
    decreases |s| - k
  {
    if k >= 1 && " b/" <= s[k..] && Run(s[k + 3..]) > 0 then Some((s[..k], s[k + 3..][..Run(s[k + 3..])]))
    else if k < |s| && !IsTerminator(s[k]) then Names(s, k + 1)
    else None
  }

  const OPENING := "diff --git a/"

  /** The first line that names two files. */
  function FindNames(s: string, opens: bool): Option<(string, string)> {
    if opens && OPENING <= s && Names(s[|OPENING|..], 0).Some? then Names(s[|OPENING|..], 0)
    else if s == "" then None
    else FindNames(s[1..], IsTerminator(s[0]))
  }

  // ---- the hunk expression --------------------------------------------------------

  predicate IsDigit(c: char) { '0' <= c <= '9' }

  function Digits(s: string): (n: nat)
    ensures n <= |s|
  {
    if s == "" || !IsDigit(s[0]) then 0 else 1 + Digits(s[1..])
  }

  function Number(s: string): nat {
    if s == "" then 0
    else Number(s[..|s| - 1]) * 10 + (if IsDigit(s[|s| - 1]) then (s[|s| - 1] - '0') as int else 0)
  }

  /** A start, perhaps a comma and a count, and what follows; one line if there
      is no count. */
  function RangeAt(s: string): Option<(Range, string)> {
    var d := Digits(s);
    if d == 0 then None
    else
      var rest := s[d..];
      var more := if "," <= rest then rest[1..] else rest;
      var e := if "," <= rest then Digits(more) else 0;
      Some((Range(Number(s[..d]), if e == 0 then 1 else Number(more[..e])), more[e..]))
  }

  function HunkAt(s: string): Option<(Range, Range)> {
    if !("@@ -" <= s) then None
    else
      var left := RangeAt(s[4..]);
      if left.None? || !(" +" <= left.value.1) then None
      else
        var right := RangeAt(left.value.1[2..]);
        if right.None? || !(" @@" <= right.value.1) then None
        else Some((left.value.0, right.value.0))
  }

  function FindHunk(s: string): Option<(Range, Range)> {
    if HunkAt(s).Some? then HunkAt(s) else if s == "" then None else FindHunk(s[1..])
  }

  // ---- one line -------------------------------------------------------------------

  function Count(lines: seq<DiffLine>, not: Kind): nat {
    if lines == [] then 0 else Count(lines[..|lines| - 1], not) + (if lines[|lines| - 1].kind == not then 0 else 1)
  }

  /** A line under a hunk; each side counts the lines it already has. */
  function Extended(h: Hunk, line: string): Hunk {
    var oldLine := Some(h.left.start + Count(h.lines, Added));
    var newLine := Some(h.right.start + Count(h.lines, Removed));
    if "-" <= line then h.(lines := h.lines + [DiffLine(line[1..], Removed, oldLine, None)])
    else if "+" <= line then h.(lines := h.lines + [DiffLine(line[1..], Added, None, newLine)])
    else if " " <= line then h.(lines := h.lines + [DiffLine(line[1..], Context, oldLine, newLine)])
    else if line == "" then h.(lines := h.lines + [DiffLine("", Context, oldLine, newLine)])
    else h
  }

  predicate IsHeader(line: string) {
    "index " <= line || "--- " <= line || "+++ " <= line
  }

  function TakeLine(f: DiffFile, first: bool, line: string): DiffFile {
    if MARK <= line then (if first then f.(header := f.header + [line]) else f)
    else if IsHeader(line) then f.(header := f.header + [line])
    else if "@@" <= line then
      var m := FindHunk(line);
      if m.None? then f else f.(hunks := f.hunks + [Hunk(line, m.value.0, m.value.1, [])])
    else if f.hunks == [] then f
    else
      var last := |f.hunks| - 1;
      f.(hunks := f.hunks[last := Extended(f.hunks[last], line)])
  }

  function TakeLines(f: DiffFile, first: bool, lines: seq<string>): DiffFile
    decreases |lines|
  {
    if lines == [] then f else TakeLines(TakeLine(f, first, lines[0]), false, lines[1..])
  }

  /** The file of a chunk; a chunk without names or hunks has none. */
  function FileOf(chunk: string): Option<DiffFile> {
    if Blank(chunk) then None
    else
      var names := FindNames(MARK + chunk, true);
      if names.None? then None
      else
        var f := TakeLines(DiffFile(names.value.0, names.value.1, [], []), true, Lines(MARK + chunk, ""));
        if f.hunks == [] then None else Some(f)
  }

  function FilesOf(chunks: seq<string>): seq<DiffFile> {
    if chunks == [] then []
    else
      var f := FileOf(chunks[0]);
      (if f.Some? then [f.value] else []) + FilesOf(chunks[1..])
  }

  function Parsed(text: string): seq<DiffFile> {
    if Blank(text) then [] else FilesOf(Chunks(text, "", true))
  }

  // ---- the parser -------------------------------------------------------------------

  method CountOther(lines: seq<DiffLine>, not: Kind) returns (n: nat)
    ensures n == Count(lines, not)
  {
    n := 0;
    for i := 0 to |lines|
      invariant n == Count(lines[..i], not)
    {
      assert lines[..i + 1][..i] == lines[..i];
      if lines[i].kind != not { n := n + 1; }
    }
    assert lines[..|lines|] == lines;
  }

  method ExtendHunk(h: Hunk, line: string) returns (r: Hunk)
    ensures r == Extended(h, line)
  {
    var oldCount := CountOther(h.lines, Added);
    var newCount := CountOther(h.lines, Removed);
    r := h;
    if "-" <= line {
      r := r.(lines := r.lines + [DiffLine(line[1..], Removed, Some(h.left.start + oldCount), None)]);
    } else if "+" <= line {
      r := r.(lines := r.lines + [DiffLine(line[1..], Added, None, Some(h.right.start + newCount))]);
    } else if " " <= line || line == "" {
      var content := if " " <= line then line[1..] else line;
      r := r.(lines := r.lines + [DiffLine(content, Context, Some(h.left.start + oldCount), Some(h.right.start + newCount))]);
    }
  }

  /** The line loop; a hunk is open once one was pushed. */
  method ParseLines(names: (string, string), lines: seq<string>) returns (f: DiffFile)
    ensures f == TakeLines(DiffFile(names.0, names.1, [], []), true, lines)
  {
    f := DiffFile(names.0, names.1, [], []);
    var inHunk := false;
    for i := 0 to |lines|
      invariant inHunk <==> f.hunks != []
      invariant TakeLines(f, i == 0, lines[i..]) == TakeLines(DiffFile(names.0, names.1, [], []), true, lines)
    {
      var line := lines[i];
      ghost var before := f;
      assert lines[i..][0] == line && lines[i..][1..] == lines[i + 1..];
      if MARK <= line {
        if i > 0 { continue; }
        f := f.(header := f.header + [line]);
      } else if IsHeader(line) {
        f := f.(header := f.header + [line]);
      } else if "@@" <= line {
        var m := FindHunk(line);
        if m.Some? {
          f := f.(hunks := f.hunks + [Hunk(line, m.value.0, m.value.1, [])]);
          inHunk := true;
        }
      } else if inHunk {
        var last := |f.hunks| - 1;
        var h := ExtendHunk(f.hunks[last], line);
        f := f.(hunks := f.hunks[last := h]);
      }
      assert f == TakeLine(before, i == 0, line);
    }
  }

  method ParseChunk(chunk: string) returns (f: Option<DiffFile>)
    ensures f == FileOf(chunk)
  {
    if Blank(chunk) { return None; }
    var header := MARK + chunk;
    var names := FindNames(header, true);
    if names.None? { return None; }
    var file := ParseLines(names.value, Lines(header, ""));
    f := if file.hunks != [] then Some(file) else None;
  }

  method ParseDiff(text: string) returns (files: seq<DiffFile>)
    ensures files == Parsed(text)
  {
    files := [];
    if Blank(text) { return; }
    var chunks := Chunks(text, "", true);
    for i := 0 to |chunks|
      invariant files + FilesOf(chunks[i..]) == FilesOf(chunks)
    {
      assert chunks[i..][1..] == chunks[i + 1..];
      ghost var was, rest := files, FilesOf(chunks[i + 1..]);
      var f := ParseChunk(chunks[i]);
      if f.Some? {
        assert was + ([f.value] + rest) == (was + [f.value]) + rest;
        files := files + [f.value];
      } else {
        assert was + ([] + rest) == was + rest;
      }
    }
    assert files + [] == files;
  }
}
