/** The round trip spelled out: where each file, hunk and line of a printed patch
    is found again, and what the parser makes of lines the printer never writes. */
module PatchContents {
  import opened Common
  import opened UnifiedDiff
  import opened DiffParser
  import opened PatchRoundTrip

  // ---- lines and their numbers ------------------------------------------------

  /** Lines that stand on the side where those of kind `not` are absent. */
  function Printed(not: Kind): PatchLine -> bool { (l: PatchLine) => l.kind != not }
  function Shown(not: Kind): DiffLine -> bool { (d: DiffLine) => d.kind != not }

  lemma {:induction false} CountIsSize(lines: seq<DiffLine>, not: Kind)
    ensures Count(lines, not) == |Positions(lines, Shown(not))|
    decreases |lines|
  {
    if lines == [] {
      assert Positions(lines, Shown(not)) == {};
    } else {
      var last := |lines| - 1;
      CountIsSize(lines[..last], not);
      PositionsSnoc(lines[..last], lines[last], Shown(not));
      assert lines[..last] + [lines[last]] == lines;
    }
  }

  /** The j-th line read: its kind, all its tokens without the final newline, and
      on each side the start plus the number of earlier lines there. */
  ghost predicate ReadsAs(d: DiffLine, ls: seq<PatchLine>, j: nat, left: nat, right: nat)
    requires j < |ls|
  {
    && d.kind == ls[j].kind
    && Unended(Flatten(ls[j].tokens), d.content)
    && d.oldLine == (if ls[j].kind == Added then None else Some(left + |Positions(ls[..j], Printed(Added))|))
    && d.newLine == (if ls[j].kind == Removed then None else Some(right + |Positions(ls[..j], Printed(Removed))|))
  }

  lemma {:induction false} ReadingAt(ls: seq<PatchLine>, left: nat, right: nat, j: nat)
    requires j < |ls|
    ensures |Reading(ls, left, right)| == |ls| && ReadsAs(Reading(ls, left, right)[j], ls, j, left, right)
    decreases |ls|
  {
    var kind := ls[0].kind;
    var l, r := if kind == Added then left else left + 1, if kind == Removed then right else right + 1;
    ReadingLength(ls, left, right);
    if j == 0 {
      TextUnended(ls[0]);
      assert Positions(ls[..0], Printed(Added)) == {} && Positions(ls[..0], Printed(Removed)) == {};
    } else {
      ReadingAt(ls[1..], l, r, j - 1);
      assert Reading(ls, left, right)[j] == Reading(ls[1..], l, r)[j - 1];
      ReadsLater(Reading(ls, left, right)[j], ls, j, left, right);
    }
  }

  /** What is read of the lines after the first is read of all of them. */
  lemma ReadsLater(d: DiffLine, ls: seq<PatchLine>, j: nat, left: nat, right: nat)
    requires 0 < j < |ls|
    requires ReadsAs(d, ls[1..], j - 1, if ls[0].kind == Added then left else left + 1, if ls[0].kind == Removed then right else right + 1)
    ensures ReadsAs(d, ls, j, left, right)
  {
    assert ls[..j] == [ls[0]] + ls[1..][..j - 1];
    PositionsCons(ls[0], ls[1..][..j - 1], Printed(Added));
    PositionsCons(ls[0], ls[1..][..j - 1], Printed(Removed));
  }

  lemma {:induction false} ReadingLength(ls: seq<PatchLine>, left: nat, right: nat)
    ensures |Reading(ls, left, right)| == |ls|
    decreases |ls|
  {
    if ls != [] {
      ReadingLength(ls[1..], if ls[0].kind == Added then left else left + 1, if ls[0].kind == Removed then right else right + 1);
    }
  }

  // ---- files and hunks --------------------------------------------------------

  lemma {:induction false} HunksReadingAt(hs: seq<PatchHunk>, k: nat)
    requires k < |hs|
    ensures |HunksReading(hs)| == |hs| && HunksReading(hs)[k] == HunkReading(hs[k], k == |hs| - 1)
  {
    if k > 0 {
      HunksReadingAt(hs[1..], k - 1);
    } else if |hs| > 1 {
      HunksReadingAt(hs[1..], 0);
    }
  }

  function HasHunks(): PatchFile -> bool { (f: PatchFile) => f.hunks != [] }

  /** How many of the first `i` files have hunks. */
  ghost function Place(files: seq<PatchFile>, i: nat): nat
    requires i <= |files|
  {
    |Positions(files[..i], HasHunks())|
  }

  lemma {:induction false} PatchReadingAt(files: seq<PatchFile>, i: nat)
    requires i < |files| && files[i].hunks != []
    ensures |PatchReading(files)| == Place(files, |files|)
    ensures Place(files, i) < |PatchReading(files)| && PatchReading(files)[Place(files, i)] == FileReading(files[i])
    decreases |files|
  {
    var rest := files[1..];
    PatchReadingSize(files);
    PatchReadingSize(rest);
    if i == 0 {
      assert Positions(files[..0], HasHunks()) == {};
    } else {
      PatchReadingAt(rest, i - 1);
      assert files[..i] == [files[0]] + rest[..i - 1];
      PositionsCons(files[0], rest[..i - 1], HasHunks());
    }
  }

  lemma {:induction false} PatchReadingSize(files: seq<PatchFile>)
    ensures |PatchReading(files)| == Place(files, |files|)
    decreases |files|
  {
    assert files[..|files|] == files;
    if files == [] {
      assert Positions(files, HasHunks()) == {};
    } else {
      PatchReadingSize(files[1..]);
      assert files[1..][..|files| - 1] == files[1..];
      PositionsCons(files[0], files[1..], HasHunks());
      assert files == [files[0]] + files[1..];
    }
  }

  /** Every file with hunks, and no other, comes back: in order, with its path on
      both sides, its three header lines, and as many hunks. */
  lemma FileComesBack(files: seq<PatchFile>, i: nat)
    requires (forall f :: f in files ==> ReadableFile(f)) && i < |files| && files[i].hunks != []
    ensures var parsed := Parsed(Patch(files));
      && |parsed| == Place(files, |files|) && Place(files, i) < |parsed|
      && var f, g := files[i], parsed[Place(files, i)];
      && g.oldFile == f.path && g.newFile == f.path && |g.hunks| == |f.hunks|
      && g.header == ["diff --git a/" + f.path + " b/" + f.path, "--- a/" + f.path, "+++ b/" + f.path]
  {
    RoundTrip(files);
    PatchReadingAt(files, i);
    HunksReadingAt(files[i].hunks, 0);
  }

  /** The lines of one hunk; the extra one under the last is an empty context line. */
  lemma HunkLineAt(h: PatchHunk, last: bool, j: nat)
    requires j < |h.lines|
    ensures var lines := HunkReading(h, last).lines;
      |lines| > j && ReadsAs(lines[j], h.lines, j, h.left.start, h.right.start)
  {
    ReadingAt(h.lines, h.left.start, h.right.start, j);
    ReadingAt(h.lines + [BLANK], h.left.start, h.right.start, j);
    assert (h.lines + [BLANK])[..j] == h.lines[..j];
  }

  lemma ExtraLine(h: PatchHunk)
    ensures var lines := HunkReading(h, true).lines;
      |lines| == |h.lines| + 1 && lines[|h.lines|].kind == Context && lines[|h.lines|].content == ""
  {
    ReadingAt(h.lines + [BLANK], h.left.start, h.right.start, |h.lines|);
  }

  /** Every hunk comes back: with its ranges and header line, and as many lines,
      one more, an empty context line, under the last. */
  lemma HunkComesBack(files: seq<PatchFile>, i: nat, k: nat)
    requires (forall f :: f in files ==> ReadableFile(f)) && i < |files| && k < |files[i].hunks|
    ensures Place(files, i) < |Parsed(Patch(files))| && k < |Parsed(Patch(files))[Place(files, i)].hunks|
    ensures var h, g := files[i].hunks[k], Parsed(Patch(files))[Place(files, i)].hunks[k];
      && g.left == h.left && g.right == h.right
      && g.header == "@@ -" + Decimal(h.left.start) + "," + Decimal(h.left.count)
                   + " +" + Decimal(h.right.start) + "," + Decimal(h.right.count) + " @@"
      && |g.lines| == |h.lines| + (if k == |files[i].hunks| - 1 then 1 else 0)
      && (k == |files[i].hunks| - 1 ==> g.lines[|h.lines|].kind == Context && g.lines[|h.lines|].content == "")
  {
    RoundTrip(files);
    PatchReadingAt(files, i);
    HunksReadingAt(files[i].hunks, k);
    var h := files[i].hunks[k];
    ReadingLength(h.lines, h.left.start, h.right.start);
    ExtraLine(h);
  }

  /** Every line comes back: its kind, all its tokens, and its numbers. */
  lemma LineComesBack(files: seq<PatchFile>, i: nat, k: nat, j: nat)
    requires (forall f :: f in files ==> ReadableFile(f)) && i < |files| && k < |files[i].hunks| && j < |files[i].hunks[k].lines|
    ensures Place(files, i) < |Parsed(Patch(files))| && k < |Parsed(Patch(files))[Place(files, i)].hunks|
    ensures var h, g := files[i].hunks[k], Parsed(Patch(files))[Place(files, i)].hunks[k];
      j < |g.lines| && ReadsAs(g.lines[j], h.lines, j, h.left.start, h.right.start)
  {
    RoundTrip(files);
    PatchReadingAt(files, i);
    HunksReadingAt(files[i].hunks, k);
    HunkLineAt(files[i].hunks[k], k == |files[i].hunks| - 1, j);
  }

  // ---- any line, printed here or elsewhere ------------------------------------------

  /** A line under an open hunk. With a sign, or empty, it becomes the hunk's next
      line; any other line, as the one that says that the newline is missing, is
      passed over. */
  lemma LineUnderHunk(f: DiffFile, line: string)
    requires f.hunks != [] && !("diff --git " <= line) && !("@@" <= line)
    requires !("index " <= line) && !("--- " <= line) && !("+++ " <= line)
    ensures var last := |f.hunks| - 1; var h := f.hunks[last];
      var was, now := h.left.start + |Positions(h.lines, Shown(Added))|, h.right.start + |Positions(h.lines, Shown(Removed))|;
      TakeLine(f, false, line) == f.(hunks := f.hunks[last := h.(lines := h.lines +
        (if line == "" then [DiffLine("", Context, Some(was), Some(now))]
         else if line[0] == '-' then [DiffLine(line[1..], Removed, Some(was), None)]
         else if line[0] == '+' then [DiffLine(line[1..], Added, None, Some(now))]
         else if line[0] == ' ' then [DiffLine(line[1..], Context, Some(was), Some(now))]
         else []))])
  {
    var h := f.hunks[|f.hunks| - 1];
    CountIsSize(h.lines, Added);
    CountIsSize(h.lines, Removed);
    SignOf(line);
    if line != "" && line[0] != '-' && line[0] != '+' && line[0] != ' ' {
      assert h.lines + [] == h.lines;
    }
  }

  lemma SignOf(line: string)
    ensures "-" <= line <==> line != "" && line[0] == '-'
    ensures "+" <= line <==> line != "" && line[0] == '+'
    ensures " " <= line <==> line != "" && line[0] == ' '
  {
  }

  /** Text is cut in two exactly where a mark opens a line, after any of the four
      line terminators. */
  lemma {:induction false} CutAtMarks(l: string, piece: string)
    ensures |Chunks(l, piece, false)| == 1 <==>
      forall i :: 0 <= i < |l| && (l[i] == '\n' || l[i] == '\r' || l[i] == '\U{2028}' || l[i] == '\U{2029}') ==>
        !("diff --git " <= l[i + 1..])
    ensures |Chunks(l, piece, false)| >= 1
    decreases |l|
  {
    if l != "" {
      var rest, opens := l[1..], IsTerminator(l[0]);
      CutAtMarks(rest, piece + [l[0]]);
      assert forall i :: 0 <= i < |rest| ==> rest[i] == l[i + 1] && rest[i + 1..] == l[i + 2..];
      if opens && MARK <= rest {
        AtLeastOne(rest[|MARK|..], "", false);
        assert l[0 + 1..] == rest;
      } else {
        SameOpening(rest, piece + [l[0]], opens);
      }
    }
  }

  lemma {:induction false} AtLeastOne(l: string, piece: string, opens: bool)
    ensures |Chunks(l, piece, opens)| >= 1
    decreases |l|
  {
    if l != "" && !(opens && MARK <= l) { AtLeastOne(l[1..], piece + [l[0]], IsTerminator(l[0])); }
  }

  lemma SameOpening(l: string, piece: string, opens: bool)
    requires !(opens && MARK <= l)
    ensures Chunks(l, piece, opens) == Chunks(l, piece, false)
  {
  }

  /** Header lines are kept in order, wherever they stand; only a first line may
      name the files. */
  lemma HeaderLineKept(f: DiffFile, first: bool, line: string)
    requires "index " <= line || "--- " <= line || "+++ " <= line || (first && "diff --git " <= line)
    ensures TakeLine(f, first, line) == f.(header := f.header + [line])
  {
    if MARK <= line { assert line[0] == 'd'; }
  }

  /** A range without a count is one line long. */
  lemma BareRange(n: nat, rest: string)
    requires rest == "" || (rest[0] != ',' && !IsDigit(rest[0]))
    ensures RangeAt(Decimal(n) + rest) == Some((Range(n, 1), rest))
  {
    var d := Decimal(n);
    DecimalDigits(n);
    DigitsOf(d, rest);
    assert (d + rest)[..|d|] == d && (d + rest)[|d|..] == rest;
    assert !("," <= rest);
  }

  /** The short form of a hunk header, and whatever stands after it. */
  lemma ShortHunkHeader(a: nat, b: nat, rest: string)
    ensures FindHunk("@@ -" + Decimal(a) + " +" + Decimal(b) + " @@" + rest) == Some((Range(a, 1), Range(b, 1)))
  {
    var right := Decimal(b) + (" @@" + rest);
    var left := Decimal(a) + (" +" + right);
    ShortJoins(Decimal(a), Decimal(b), rest);
    BareRange(a, " +" + right);
    BareRange(b, " @@" + rest);
    assert ("@@ -" + left)[4..] == left && (" +" + right)[2..] == right;
  }

  lemma ShortJoins(a: string, b: string, rest: string)
    ensures "@@ -" + a + " +" + b + " @@" + rest == "@@ -" + (a + (" +" + (b + (" @@" + rest))))
  {
    assert "@@ -" + a + " +" + b + " @@" + rest == ("@@ -" + a) + (" +" + (b + (" @@" + rest)));
  }
}
