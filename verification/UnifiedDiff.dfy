/** The patch printer: hunks of one file as unified diff text. */
module UnifiedDiff {
  import opened Common

  datatype Kind = Context | Removed | Added
  datatype PatchLine = PatchLine(kind: Kind, tokens: seq<string>)
  datatype Range = Range(start: nat, count: nat)
  datatype PatchHunk = PatchHunk(left: Range, right: Range, lines: seq<PatchLine>)
  datatype PatchFile = PatchFile(path: string, hunks: seq<PatchHunk>)

  // ---- what is printed, line by line ----------------------------------------

  function Mark(kind: Kind): char {
    match kind
    case Context => ' '
    case Removed => '-'
    case Added => '+'
  }

  function Flatten(parts: seq<string>): string {
    if parts == [] then "" else parts[0] + Flatten(parts[1..])
  }

  /** A line's text: its tokens, without the final newline if there is one. */
  function Text(l: PatchLine): string {
    var s := Flatten(l.tokens);
    if s != "" && s[|s| - 1] == '\n' then s[..|s| - 1] else s
  }

  function LineText(l: PatchLine): string {
    [Mark(l.kind)] + Text(l)
  }

  function HunkHeader(h: PatchHunk): string {
    "@@ -" + Decimal(h.left.start) + "," + Decimal(h.left.count) + " +" + Decimal(h.right.start) + "," + Decimal(h.right.count) + " @@"
  }

  function LineTexts(ls: seq<PatchLine>): seq<string> {
    if ls == [] then [] else [LineText(ls[0])] + LineTexts(ls[1..])
  }

  function HunkTexts(hs: seq<PatchHunk>): seq<string> {
    if hs == [] then [] else [HunkHeader(hs[0])] + LineTexts(hs[0].lines) + HunkTexts(hs[1..])
  }

  function HeaderTexts(path: string): seq<string> {
    ["diff --git a/" + path + " b/" + path, "--- a/" + path, "+++ b/" + path]
  }

  /** The lines of a file's patch. */
  function FileTexts(f: PatchFile): seq<string> {
    HeaderTexts(f.path) + HunkTexts(f.hunks)
  }

  /** Lines as text, each ended by a newline. */
  function Joined(lines: seq<string>): string {
    if lines == [] then "" else lines[0] + "\n" + Joined(lines[1..])
  }

  function Patch(files: seq<PatchFile>): string {
    if files == [] then "" else Joined(FileTexts(files[0])) + Patch(files[1..])
  }

  // ---- the printer -----------------------------------------------------------

  lemma {:induction false} JoinedConcat(a: seq<string>, b: seq<string>)
    ensures Joined(a + b) == Joined(a) + Joined(b)
  {
    if a == [] {
      assert a + b == b;
    } else {
      JoinedConcat(a[1..], b);
      assert (a + b)[1..] == a[1..] + b;
      Glue(a[0] + "\n", Joined(a[1..]), Joined(b));
    }
  }

  lemma Glue(a: string, b: string, c: string)
    ensures a + (b + c) == (a + b) + c
  {
  }

  lemma FlattenOne(token: string)
    ensures Flatten([token]) == token
  {
    assert [token][1..] == [];
    assert token + "" == token;
  }

  lemma {:induction false} FlattenConcat(a: seq<string>, b: seq<string>)
    ensures Flatten(a + b) == Flatten(a) + Flatten(b)
  {
    if a == [] {
      assert a + b == b;
    } else {
      FlattenConcat(a[1..], b);
      assert (a + b)[1..] == a[1..] + b;
      Glue(a[0], Flatten(a[1..]), Flatten(b));
    }
  }

  /** Each token stands right after the ones before it. */
  lemma TokenInPlace(a: seq<string>, token: string, b: seq<string>)
    ensures Flatten(a + [token] + b) == Flatten(a) + token + Flatten(b)
  {
    FlattenConcat(a + [token], b);
    FlattenConcat(a, [token]);
    FlattenOne(token);
  }

  /** `text` is `s` without its final newline, if it has one. */
  ghost predicate Unended(s: string, text: string) {
    if s != "" && s[|s| - 1] == '\n' then s == text + "\n" else s == text
  }

  lemma TextUnended(l: PatchLine)
    ensures Unended(Flatten(l.tokens), Text(l))
  {
    var s := Flatten(l.tokens);
    if s != "" && s[|s| - 1] == '\n' { assert s == s[..|s| - 1] + "\n"; }
  }

  lemma UnendedOnce(s: string, a: string, b: string)
    requires Unended(s, a) && Unended(s, b)
    ensures a == b
  {
    if s != "" && s[|s| - 1] == '\n' { assert a == s[..|s| - 1] && b == s[..|s| - 1]; }
  }

  lemma OnlyText(l: PatchLine)
    ensures forall text :: Unended(Flatten(l.tokens), text) <==> text == Text(l)
  {
    TextUnended(l);
    forall text | Unended(Flatten(l.tokens), text) ensures text == Text(l) { UnendedOnce(Flatten(l.tokens), text, Text(l)); }
  }

  lemma SignedLine(before: string, l: PatchLine)
    ensures before + LineText(l) + "\n" ==
      before + (if l.kind == Added then "+" else if l.kind == Removed then "-" else " ") + Text(l) + "\n"
  {
    assert LineText(l) == (if l.kind == Added then "+" else if l.kind == Removed then "-" else " ") + Text(l);
  }

  /** The sign of the line, all its tokens in order, and exactly one newline at
      the end. */
  method PrintLine(before: string, l: PatchLine) returns (out: string)
    ensures out == before + LineText(l) + "\n"
    ensures forall text :: Unended(Flatten(l.tokens), text) ==>
      out == before + (if l.kind == Added then "+" else if l.kind == Removed then "-" else " ") + text + "\n"
  {
    OnlyText(l);
    SignedLine(before, l);
    out := before + [Mark(l.kind)];
    ghost var base, s := out, Flatten(l.tokens);
    for k := 0 to |l.tokens|
      invariant out + Flatten(l.tokens[k..]) == base + s
    {
      assert l.tokens[k..][1..] == l.tokens[k + 1..];
      out := out + l.tokens[k];
    }
    assert out == base + s;
    if out[|out| - 1] != '\n' {
      out := out + "\n";
    } else {
      assert s[|s| - 1] == '\n';
      assert s == s[..|s| - 1] + "\n";
    }
  }

  lemma NextLine(ls: seq<PatchLine>, j: nat)
    requires j < |ls|
    ensures Joined(LineTexts(ls[j..])) == LineText(ls[j]) + "\n" + Joined(LineTexts(ls[j + 1..]))
  {
    assert ls[j..][1..] == ls[j + 1..];
    assert ([LineText(ls[j])] + LineTexts(ls[j + 1..]))[1..] == LineTexts(ls[j + 1..]);
  }

  lemma Shift(out: string, line: string, rest: string)
    ensures out + (line + "\n" + rest) == (out + line + "\n") + rest
  {
  }

  method PrintLines(before: string, ls: seq<PatchLine>) returns (out: string)
    ensures out == before + Joined(LineTexts(ls))
  {
    out := before;
    for j := 0 to |ls|
      invariant out + Joined(LineTexts(ls[j..])) == before + Joined(LineTexts(ls))
    {
      NextLine(ls, j);
      Shift(out, LineText(ls[j]), Joined(LineTexts(ls[j + 1..])));
      out := PrintLine(out, ls[j]);
    }
    assert out + "" == out;
  }

  method PrintHunk(before: string, h: PatchHunk) returns (out: string)
    ensures out == before + HunkText(h)
  {
    out := before + HunkHeader(h) + "\n";
    out := PrintLines(out, h.lines);
  }

  function HunkText(h: PatchHunk): string {
    HunkHeader(h) + "\n" + Joined(LineTexts(h.lines))
  }

  lemma HunkJoined(h: PatchHunk, rest: seq<string>)
    ensures Joined([HunkHeader(h)] + LineTexts(h.lines) + rest) == HunkText(h) + Joined(rest)
  {
    var lines := [HunkHeader(h)] + LineTexts(h.lines);
    JoinedConcat(lines, rest);
    assert lines[1..] == LineTexts(h.lines);
  }

  lemma NextHunk(hs: seq<PatchHunk>, j: nat)
    requires j < |hs|
    ensures Joined(HunkTexts(hs[j..])) == HunkText(hs[j]) + Joined(HunkTexts(hs[j + 1..]))
  {
    assert hs[j..][1..] == hs[j + 1..];
    HunkJoined(hs[j], HunkTexts(hs[j + 1..]));
  }

  method PrintHunks(before: string, hs: seq<PatchHunk>) returns (out: string)
    ensures out == before + Joined(HunkTexts(hs))
  {
    out := before;
    for j := 0 to |hs|
      invariant out + Joined(HunkTexts(hs[j..])) == before + Joined(HunkTexts(hs))
    {
      NextHunk(hs, j);
      ghost var was, piece, rest := out, HunkText(hs[j]), Joined(HunkTexts(hs[j + 1..]));
      assert was + (piece + rest) == (was + piece) + rest;
      out := PrintHunk(out, hs[j]);
    }
    assert out + "" == out;
  }

  lemma HeaderJoined(path: string)
    ensures Joined(HeaderTexts(path)) ==
      "diff --git a/" + path + " b/" + path + "\n--- a/" + path + "\n+++ b/" + path + "\n"
  {
    var h := HeaderTexts(path);
    assert h == [h[0]] + ([h[1]] + [h[2]]);
    JoinedConcat([h[0]], [h[1]] + [h[2]]);
    JoinedConcat([h[1]], [h[2]]);
  }

  method UnifiedPatch(f: PatchFile) returns (out: string)
    ensures out == Joined(FileTexts(f))
    ensures "diff --git a/" + f.path + " b/" + f.path + "\n--- a/" + f.path + "\n+++ b/" + f.path + "\n" <= out
  {
    out := "diff --git a/" + f.path + " b/" + f.path + "\n--- a/" + f.path + "\n+++ b/" + f.path + "\n";
    HeaderJoined(f.path);
    JoinedConcat(HeaderTexts(f.path), HunkTexts(f.hunks));
    out := PrintHunks(out, f.hunks);
  }

  /** A whole patch: one file after the other. */
  method TreePatch(files: seq<PatchFile>) returns (out: string)
    ensures out == Patch(files)
  {
    out := "";
    for i := 0 to |files|
      invariant out + Patch(files[i..]) == Patch(files)
    {
      var part := UnifiedPatch(files[i]);
      assert files[i..][1..] == files[i + 1..];
      out := out + part;
    }
    assert out + "" == out;
  }
}
