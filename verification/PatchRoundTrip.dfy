/** What the parser makes of a printed patch, and of any text. */
module PatchRoundTrip {
  import opened Common
  import opened UnifiedDiff
  import opened DiffParser

  // ---- any text: the numbers of a hunk's lines ----------------------------------

  /** Line `d` stands after the lines `before`. */
  predicate Numbered(h: Hunk, before: seq<DiffLine>, d: DiffLine) {
    && d.oldLine == (if d.kind == Added then None else Some(h.left.start + Count(before, Added)))
    && d.newLine == (if d.kind == Removed then None else Some(h.right.start + Count(before, Removed)))
  }

  /** Each side numbers its own lines consecutively from the hunk's start. */
  ghost predicate WellNumbered(h: Hunk) {
    forall j :: 0 <= j < |h.lines| ==> Numbered(h, h.lines[..j], h.lines[j])
  }

  ghost predicate AllNumbered(hs: seq<Hunk>) {
    forall i :: 0 <= i < |hs| ==> WellNumbered(hs[i])
  }

  lemma StillNumbered(h: Hunk, e: Hunk, d: DiffLine, j: nat)
    requires WellNumbered(h) && e == h.(lines := h.lines + [d]) && j < |h.lines|
    ensures Numbered(e, e.lines[..j], e.lines[j])
  {
    assert Numbered(h, h.lines[..j], h.lines[j]);
    assert e.lines[..j] == h.lines[..j];
  }

  lemma AppendNumbered(h: Hunk, e: Hunk, d: DiffLine)
    requires WellNumbered(h) && Numbered(h, h.lines, d) && e == h.(lines := h.lines + [d])
    ensures WellNumbered(e)
  {
    forall j | 0 <= j < |e.lines|
      ensures Numbered(e, e.lines[..j], e.lines[j])
    {
      if j < |h.lines| { StillNumbered(h, e, d, j); } else { assert e.lines[..j] == h.lines; }
    }
  }

  lemma ExtendedNumbered(h: Hunk, line: string)
    requires WellNumbered(h)
    ensures WellNumbered(Extended(h, line))
  {
    var e := Extended(h, line);
    if e != h {
      var d := e.lines[|h.lines|];
      AppendNumbered(h, e, d);
    }
  }

  lemma TakeLineNumbered(f: DiffFile, first: bool, line: string)
    requires AllNumbered(f.hunks)
    ensures AllNumbered(TakeLine(f, first, line).hunks)
  {
    if f.hunks != [] { ExtendedNumbered(f.hunks[|f.hunks| - 1], line); }
  }

  lemma {:induction false} TakeLinesNumbered(f: DiffFile, first: bool, lines: seq<string>)
    requires AllNumbered(f.hunks)
    ensures AllNumbered(TakeLines(f, first, lines).hunks)
    decreases |lines|
  {
    if lines != [] {
      TakeLineNumbered(f, first, lines[0]);
      TakeLinesNumbered(TakeLine(f, first, lines[0]), false, lines[1..]);
    }
  }

  lemma {:induction false} FilesNumbered(chunks: seq<string>, i: nat)
    requires i < |FilesOf(chunks)|
    ensures AllNumbered(FilesOf(chunks)[i].hunks)
  {
    if chunks != [] {
      var f := FileOf(chunks[0]);
      if f.Some? {
        var names := FindNames(MARK + chunks[0], true).value;
        TakeLinesNumbered(DiffFile(names.0, names.1, [], []), true, Lines(MARK + chunks[0], ""));
        if i > 0 { FilesNumbered(chunks[1..], i - 1); }
      } else {
        FilesNumbered(chunks[1..], i);
      }
    }
  }

  /** Whatever the text, every hunk of every file is numbered without gaps. */
  lemma NumbersConsecutive(text: string, i: nat, k: nat)
    requires i < |Parsed(text)| && k < |Parsed(text)[i].hunks|
    ensures WellNumbered(Parsed(text)[i].hunks[k])
  {
    FilesNumbered(Chunks(text, "", true), i);
  }

  lemma {:induction false} CountRange(lines: seq<DiffLine>, j: nat, k: nat, not: Kind)
    requires j <= k <= |lines| && forall m :: j <= m < k ==> lines[m].kind == not
    ensures Count(lines[..k], not) == Count(lines[..j], not)
    decreases k - j
  {
    if j < k {
      assert lines[..k][..k - 1] == lines[..k - 1];
      CountRange(lines, j, k - 1, not);
    }
  }

  /** The number on the side that lines of kind `not` are absent from. */
  function Side(d: DiffLine, not: Kind): Option<nat> {
    if not == Added then d.oldLine else d.newLine
  }

  function Start(h: Hunk, not: Kind): nat {
    if not == Added then h.left.start else h.right.start
  }

  lemma SideNumber(h: Hunk, not: Kind, j: nat)
    requires WellNumbered(h) && not != Context && j < |h.lines| && h.lines[j].kind != not
    ensures Side(h.lines[j], not) == Some(Start(h, not) + Count(h.lines[..j], not))
  {
    assert Numbered(h, h.lines[..j], h.lines[j]);
  }

  lemma CountNext(lines: seq<DiffLine>, not: Kind, j: nat, k: nat)
    requires j < k <= |lines| && lines[j].kind != not && forall m :: j < m < k ==> lines[m].kind == not
    ensures Count(lines[..k], not) == Count(lines[..j], not) + 1
  {
    CountRange(lines, j + 1, k, not);
    assert lines[..j + 1][..j] == lines[..j];
  }

  /** On either side each line has one more than the line before it on that side. */
  lemma NextNumber(h: Hunk, not: Kind, j: nat, k: nat)
    requires WellNumbered(h) && not != Context
    requires j < k < |h.lines| && h.lines[j].kind != not && h.lines[k].kind != not
    requires forall m :: j < m < k ==> h.lines[m].kind == not
    ensures Side(h.lines[j], not).Some? && Side(h.lines[k], not) == Some(Side(h.lines[j], not).value + 1)
  {
    assert Count(h.lines[..k], not) == Count(h.lines[..j], not) + 1 by { CountNext(h.lines, not, j, k); }
    SideNumber(h, not, j);
    SideNumber(h, not, k);
  }

  /** And the first line of a side has the hunk's start. */
  lemma FirstNumber(h: Hunk, not: Kind, j: nat)
    requires WellNumbered(h) && not != Context && j < |h.lines| && h.lines[j].kind != not
    requires forall m :: 0 <= m < j ==> h.lines[m].kind == not
    ensures Side(h.lines[j], not) == Some(Start(h, not))
  {
    SideNumber(h, not, j);
    CountRange(h.lines, 0, j, not);
  }

  // ---- what a printed patch should be read as -------------------------------------

  /** Lines with their types and texts, numbered from the two starts. */
  function Reading(ls: seq<PatchLine>, left: nat, right: nat): seq<DiffLine> {
    if ls == [] then []
    else
      var kind := ls[0].kind;
      [DiffLine(Text(ls[0]), kind, if kind == Added then None else Some(left), if kind == Removed then None else Some(right))]
      + Reading(ls[1..], if kind == Added then left else left + 1, if kind == Removed then right else right + 1)
  }

  const BLANK := PatchLine(Context, [])

  function HunkReading(h: PatchHunk, last: bool): Hunk {
    Hunk(HunkHeader(h), h.left, h.right, Reading(if last then h.lines + [BLANK] else h.lines, h.left.start, h.right.start))
  }

  function HunksReading(hs: seq<PatchHunk>): seq<Hunk> {
    if hs == [] then [] else [HunkReading(hs[0], |hs| == 1)] + HunksReading(hs[1..])
  }

  function FileReading(f: PatchFile): DiffFile {
    DiffFile(f.path, f.path, HeaderTexts(f.path), HunksReading(f.hunks))
  }

  /** Files without hunks are not shown. */
  function PatchReading(files: seq<PatchFile>): seq<DiffFile> {
    if files == [] then []
    else (if files[0].hunks == [] then [] else [FileReading(files[0])]) + PatchReading(files[1..])
  }

  // ---- the conditions ---------------------------------------------------------------

  /** No mark opens a line inside this one. */
  predicate NoInnerMark(l: string) {
    forall i :: 0 <= i < |l| && IsTerminator(l[i]) ==> !(MARK <= l[i + 1..])
  }

  predicate Readable(l: PatchLine) {
    && '\n' !in Text(l)
    && NoInnerMark(Text(l))
    && !(l.kind == Removed && "-- " <= Text(l))
    && !(l.kind == Added && "++ " <= Text(l))
  }

  predicate PlainPath(path: string) {
    path != "" && forall i :: 0 <= i < |path| ==> !IsTerminator(path[i])
  }

  predicate NoSecondName(path: string) {
    forall k :: 1 <= k < |path| ==> !(" b/" <= path[k..])
  }

  predicate ReadableFile(f: PatchFile) {
    && PlainPath(f.path) && NoSecondName(f.path)
    && forall h :: h in f.hunks ==> forall l :: l in h.lines ==> Readable(l)
  }

  // ---- one line ------------------------------------------------------------------------

  /** The number the next line of a side gets. */
  function Next(h: Hunk, not: Kind): nat {
    Start(h, not) + Count(h.lines, not)
  }

  /** A hunk that has lines already, with more lines read. */
  function More(h: Hunk, ls: seq<PatchLine>): Hunk {
    h.(lines := h.lines + Reading(ls, Next(h, Added), Next(h, Removed)))
  }

  lemma ExtendedReads(h: Hunk, l: PatchLine)
    ensures Extended(h, LineText(l)) == More(h, [l])
  {
    var s := LineText(l);
    assert s[0] == Mark(l.kind) && s[1..] == Text(l);
    assert "-" <= s <==> s[0] == '-';
    assert "+" <= s <==> s[0] == '+';
    assert " " <= s <==> s[0] == ' ';
    ReadingOne(l, Next(h, Added), Next(h, Removed));
  }

  lemma ReadingOne(l: PatchLine, left: nat, right: nat)
    ensures Reading([l], left, right) ==
      [DiffLine(Text(l), l.kind, if l.kind == Added then None else Some(left), if l.kind == Removed then None else Some(right))]
  {
    assert [l][1..] == [];
  }

  lemma LineIsNoMark(l: PatchLine)
    ensures !(MARK <= LineText(l)) && !("@@" <= LineText(l))
    ensures IsHeader(LineText(l)) <==> (l.kind == Removed && "-- " <= Text(l)) || (l.kind == Added && "++ " <= Text(l))
  {
    var s := LineText(l);
    assert s[0] == Mark(l.kind) && s[1..] == Text(l);
    PrefixAfter('-', "-- ", s);
    PrefixAfter('+', "++ ", s);
    assert ['-'] + "-- " == "--- " && ['+'] + "++ " == "+++ ";
  }

  /** A printed line comes back with its type and text unless it reads as a file
      header: exactly when removed text opens with two dashes and a space, or
      added text with two pluses and a space. */
  lemma LineReads(f: DiffFile, l: PatchLine)
    requires f.hunks != []
    ensures var last := |f.hunks| - 1;
      TakeLine(f, false, LineText(l)) == f.(hunks := f.hunks[last := More(f.hunks[last], [l])])
      <==> !(l.kind == Removed && "-- " <= Text(l)) && !(l.kind == Added && "++ " <= Text(l))
  {
    var s, g := LineText(l), TakeLine(f, false, LineText(l));
    LineIsNoMark(l);
    ExtendedReads(f.hunks[|f.hunks| - 1], l);
    if IsHeader(s) {
      assert |g.header| == |f.header| + 1;
    }
  }

  lemma PrefixAfter(c: char, p: string, s: string)
    requires s != ""
    ensures [c] + p <= s <==> s[0] == c && p <= s[1..]
  {
    if s[0] == c && p <= s[1..] {
      assert s == [s[0]] + s[1..];
    }
  }

  // ---- the lines of a hunk ---------------------------------------------------------------

  lemma CountSnoc(lines: seq<DiffLine>, d: DiffLine, not: Kind)
    ensures Count(lines + [d], not) == Count(lines, not) + (if d.kind == not then 0 else 1)
  {
    assert (lines + [d])[..|lines|] == lines;
  }

  function Onward(kind: Kind, not: Kind, n: nat): nat {
    if kind == not then n else n + 1
  }

  lemma ReadingStep(ls: seq<PatchLine>, left: nat, right: nat)
    requires ls != []
    ensures |Reading([ls[0]], left, right)| == 1 && Reading([ls[0]], left, right)[0].kind == ls[0].kind
    ensures Reading(ls, left, right) ==
      Reading([ls[0]], left, right) + Reading(ls[1..], Onward(ls[0].kind, Added, left), Onward(ls[0].kind, Removed, right))
  {
    ReadingOne(ls[0], left, right);
  }

  lemma NextAfter(h: Hunk, d: DiffLine, not: Kind)
    ensures Next(h.(lines := h.lines + [d]), not) == Onward(d.kind, not, Next(h, not))
  {
    CountSnoc(h.lines, d, not);
  }

  lemma MoreCounts(h: Hunk, l: PatchLine)
    ensures Next(More(h, [l]), Added) == Onward(l.kind, Added, Next(h, Added))
    ensures Next(More(h, [l]), Removed) == Onward(l.kind, Removed, Next(h, Removed))
  {
    ReadingOne(l, Next(h, Added), Next(h, Removed));
    var d := Reading([l], Next(h, Added), Next(h, Removed))[0];
    NextAfter(h, d, Added);
    NextAfter(h, d, Removed);
  }

  lemma ReadingSplit(before: seq<DiffLine>, ls: seq<PatchLine>, left: nat, right: nat)
    requires ls != []
    ensures before + Reading(ls, left, right) ==
      (before + Reading([ls[0]], left, right)) + Reading(ls[1..], Onward(ls[0].kind, Added, left), Onward(ls[0].kind, Removed, right))
  {
    ReadingStep(ls, left, right);
    var one := Reading([ls[0]], left, right);
    var rest := Reading(ls[1..], Onward(ls[0].kind, Added, left), Onward(ls[0].kind, Removed, right));
    assert (before + one) + rest == before + (one + rest);
  }

  /** Reading a line and then more is reading them all. */
  lemma MoreMore(h: Hunk, ls: seq<PatchLine>)
    requires ls != []
    ensures More(More(h, [ls[0]]), ls[1..]) == More(h, ls)
  {
    MoreCounts(h, ls[0]);
    ReadingSplit(h.lines, ls, Next(h, Added), Next(h, Removed));
  }

  function WithLast(f: DiffFile, h: Hunk): DiffFile
    requires f.hunks != []
  {
    f.(hunks := f.hunks[|f.hunks| - 1 := h])
  }

  function Last(f: DiffFile): Hunk
    requires f.hunks != []
  {
    f.hunks[|f.hunks| - 1]
  }

  lemma LastTwice(f: DiffFile, h: Hunk, g: Hunk)
    requires f.hunks != []
    ensures WithLast(f, h).hunks != [] && Last(WithLast(f, h)) == h
    ensures WithLast(WithLast(f, h), g) == WithLast(f, g)
  {
  }

  lemma TakeStep(f: DiffFile, line: string, rest: seq<string>)
    ensures TakeLines(f, false, [line] + rest) == TakeLines(TakeLine(f, false, line), false, rest)
  {
    assert ([line] + rest)[1..] == rest;
  }

  lemma TakeOne(f: DiffFile, line: string)
    ensures TakeLines(f, false, [line]) == TakeLine(f, false, line)
  {
    assert [line][1..] == [];
  }

  lemma NoLines(f: DiffFile)
    requires f.hunks != []
    ensures WithLast(f, More(Last(f), [])) == f
  {
    assert Last(f).lines + [] == Last(f).lines;
  }

  lemma {:induction false} LinesRead(f: DiffFile, ls: seq<PatchLine>, tail: seq<string>)
    requires f.hunks != [] && forall l :: l in ls ==> Readable(l)
    ensures TakeLines(f, false, LineTexts(ls) + tail) == TakeLines(WithLast(f, More(Last(f), ls)), false, tail)
    decreases |ls|
  {
    if ls == [] {
      assert LineTexts(ls) + tail == tail;
      NoLines(f);
    } else {
      var h := More(Last(f), [ls[0]]);
      var g := WithLast(f, h);
      assert LineTexts(ls) + tail == [LineText(ls[0])] + (LineTexts(ls[1..]) + tail);
      TakeStep(f, LineText(ls[0]), LineTexts(ls[1..]) + tail);
      LineReads(f, ls[0]);
      assert Readable(ls[0]) && TakeLine(f, false, LineText(ls[0])) == g;
      MoreMore(Last(f), ls);
      LastTwice(f, h, More(Last(f), ls));
      LinesRead(g, ls[1..], tail);
    }
  }

  lemma BlankExtends(h: Hunk)
    ensures Extended(h, "") == More(h, [BLANK])
  {
    ReadingOne(BLANK, Next(h, Added), Next(h, Removed));
    assert Text(BLANK) == "";
  }

  /** The empty line after the final newline is one more context line. */
  lemma BlankRead(f: DiffFile)
    requires f.hunks != []
    ensures TakeLines(f, false, [""]) == WithLast(f, More(Last(f), [BLANK]))
  {
    TakeOne(f, "");
    BlankExtends(Last(f));
  }

  // ---- the hunk header ------------------------------------------------------------------

  lemma {:induction false} DecimalDigits(n: nat)
    ensures Decimal(n) != "" && forall i :: 0 <= i < |Decimal(n)| ==> IsDigit(Decimal(n)[i])
    ensures Number(Decimal(n)) == n
  {
    if n < 10 {
      DigitReads(n);
      assert [Digit(n)][..0] == "";
    } else {
      DecimalDigits(n / 10);
      DigitReads(n % 10);
      var s := Decimal(n);
      assert s[..|s| - 1] == Decimal(n / 10);
    }
  }

  lemma DigitReads(n: nat)
    requires n < 10
    ensures IsDigit(Digit(n)) && (Digit(n) - '0') as int == n
  {
  }

  lemma {:induction false} DigitsOf(d: string, rest: string)
    requires forall i :: 0 <= i < |d| ==> IsDigit(d[i])
    requires rest == "" || !IsDigit(rest[0])
    ensures Digits(d + rest) == |d|
  {
    if d == "" {
      assert d + rest == rest;
    } else {
      DigitsOf(d[1..], rest);
      assert (d + rest)[1..] == d[1..] + rest;
    }
  }

  lemma RangeReads(r: Range, rest: string)
    requires rest != "" && rest[0] == ' '
    ensures RangeAt(Decimal(r.start) + "," + Decimal(r.count) + rest) == Some((r, rest))
  {
    var a, b := Decimal(r.start), Decimal(r.count);
    DecimalDigits(r.start);
    DecimalDigits(r.count);
    var s := a + "," + b + rest;
    RangeSplit(a, b, rest);
    DigitsOf(a, "," + (b + rest));
    DigitsOf(b, rest);
    RangeOf(s, a, b, rest);
  }

  lemma RangeSplit(a: string, b: string, rest: string)
    ensures var s := a + "," + b + rest;
      s == a + ("," + (b + rest)) && s[..|a|] == a && s[|a|..] == "," + (b + rest)
  {
  }

  lemma RangeOf(s: string, a: string, b: string, rest: string)
    requires |a| <= |s| && s[..|a|] == a && s[|a|..] == "," + (b + rest)
    requires Digits(s) == |a| && a != "" && Digits(b + rest) == |b| && b != ""
    ensures RangeAt(s) == Some((Range(Number(a), Number(b)), rest))
  {
    assert ("," + (b + rest))[1..] == b + rest;
    assert (b + rest)[..|b|] == b && (b + rest)[|b|..] == rest;
  }

  lemma HunkHeaderReads(h: PatchHunk)
    ensures FindHunk(HunkHeader(h)) == Some((h.left, h.right))
  {
    var s := HunkHeader(h);
    var right := Decimal(h.right.start) + "," + Decimal(h.right.count) + " @@";
    var left := Decimal(h.left.start) + "," + Decimal(h.left.count) + (" +" + right);
    HeaderParts(h, left, right);
    RangeReads(h.left, " +" + right);
    RangeReads(h.right, " @@");
    assert (" +" + right)[2..] == right;
  }

  lemma HunkHeaderOpens(h: PatchHunk)
    ensures "@@" <= HunkHeader(h) && !(MARK <= HunkHeader(h)) && !IsHeader(HunkHeader(h))
  {
    assert HunkHeader(h)[0] == '@';
  }

  lemma HeaderParts(h: PatchHunk, left: string, right: string)
    requires right == Decimal(h.right.start) + "," + Decimal(h.right.count) + " @@"
    requires left == Decimal(h.left.start) + "," + Decimal(h.left.count) + (" +" + right)
    ensures HunkHeader(h) == "@@ -" + left && "@@ -" <= HunkHeader(h) && HunkHeader(h)[4..] == left
  {
    HeaderJoins(Decimal(h.left.start), Decimal(h.left.count), Decimal(h.right.start), Decimal(h.right.count));
  }

  lemma HeaderJoins(a: string, b: string, c: string, d: string)
    ensures "@@ -" + a + "," + b + " +" + c + "," + d + " @@" == "@@ -" + (a + "," + b + (" +" + (c + "," + d + " @@")))
  {
    var e := c + "," + d + " @@";
    assert "@@ -" + a + "," + b + " +" + c + "," + d + " @@" == ("@@ -" + a + "," + b) + (" +" + e);
  }

  // ---- the hunks of a file -------------------------------------------------------------

  lemma AddHunk(f: DiffFile, h: PatchHunk)
    ensures TakeLine(f, false, HunkHeader(h)) == f.(hunks := f.hunks + [Hunk(HunkHeader(h), h.left, h.right, [])])
  {
    HunkHeaderReads(h);
    HunkHeaderOpens(h);
  }

  lemma MoreOfNew(h: PatchHunk, ls: seq<PatchLine>)
    ensures More(Hunk(HunkHeader(h), h.left, h.right, []), ls) ==
      Hunk(HunkHeader(h), h.left, h.right, Reading(ls, h.left.start, h.right.start))
  {
    assert [] + Reading(ls, h.left.start, h.right.start) == Reading(ls, h.left.start, h.right.start);
  }

  function Opened(h: PatchHunk): Hunk {
    Hunk(HunkHeader(h), h.left, h.right, [])
  }

  /** One hunk's lines under its header. */
  lemma HunkReads(f: DiffFile, h: PatchHunk, tail: seq<string>)
    requires forall l :: l in h.lines ==> Readable(l)
    ensures TakeLines(f, false, ([HunkHeader(h)] + LineTexts(h.lines)) + tail)
         == TakeLines(f.(hunks := f.hunks + [More(Opened(h), h.lines)]), false, tail)
  {
    var g := f.(hunks := f.hunks + [Opened(h)]);
    assert ([HunkHeader(h)] + LineTexts(h.lines)) + tail == [HunkHeader(h)] + (LineTexts(h.lines) + tail);
    TakeStep(f, HunkHeader(h), LineTexts(h.lines) + tail);
    AddHunk(f, h);
    LinesRead(g, h.lines, tail);
    assert WithLast(g, More(Opened(h), h.lines)) == f.(hunks := f.hunks + [More(Opened(h), h.lines)]);
  }

  lemma {:induction false} ReadingConcat(ls: seq<PatchLine>, l: PatchLine, h: Hunk)
    ensures More(More(h, ls), [l]) == More(h, ls + [l])
    decreases |ls|
  {
    if ls == [] {
      assert h.lines + [] == h.lines;
      assert ls + [l] == [l];
    } else {
      MoreMore(h, ls);
      MoreMore(h, ls + [l]);
      assert (ls + [l])[1..] == ls[1..] + [l];
      ReadingConcat(ls[1..], l, More(h, [ls[0]]));
    }
  }

  /** The last hunk also takes the blank line. */
  lemma LastHunkReads(f: DiffFile, h: PatchHunk)
    requires forall l :: l in h.lines ==> Readable(l)
    ensures TakeLines(f, false, ([HunkHeader(h)] + LineTexts(h.lines)) + [""])
         == f.(hunks := f.hunks + [HunkReading(h, true)])
  {
    HunkReads(f, h, [""]);
    var g := f.(hunks := f.hunks + [More(Opened(h), h.lines)]);
    BlankRead(g);
    ReadingConcat(h.lines, BLANK, Opened(h));
    MoreOfNew(h, h.lines + [BLANK]);
  }

  lemma FirstHunkReads(f: DiffFile, hs: seq<PatchHunk>)
    requires |hs| > 1 && forall l :: l in hs[0].lines ==> Readable(l)
    ensures TakeLines(f, false, HunkTexts(hs) + [""])
         == TakeLines(f.(hunks := f.hunks + [HunkReading(hs[0], false)]), false, HunkTexts(hs[1..]) + [""])
  {
    var texts, rest := [HunkHeader(hs[0])] + LineTexts(hs[0].lines), HunkTexts(hs[1..]);
    assert (texts + rest) + [""] == texts + (rest + [""]);
    MoreOfNew(hs[0], hs[0].lines);
    HunkReads(f, hs[0], rest + [""]);
  }

  lemma OnlyHunkReads(f: DiffFile, hs: seq<PatchHunk>)
    requires |hs| == 1 && forall l :: l in hs[0].lines ==> Readable(l)
    ensures TakeLines(f, false, HunkTexts(hs) + [""]) == f.(hunks := f.hunks + [HunkReading(hs[0], true)])
  {
    var texts := [HunkHeader(hs[0])] + LineTexts(hs[0].lines);
    assert hs[1..] == [] && texts + [] == texts;
    LastHunkReads(f, hs[0]);
  }

  lemma {:induction false} HunksRead(f: DiffFile, hs: seq<PatchHunk>)
    requires hs != [] && forall h :: h in hs ==> forall l :: l in h.lines ==> Readable(l)
    ensures TakeLines(f, false, HunkTexts(hs) + [""]) == f.(hunks := f.hunks + HunksReading(hs))
    decreases |hs|
  {
    var one, rest := HunkReading(hs[0], |hs| == 1), HunksReading(hs[1..]);
    assert hs[0] in hs;
    if |hs| == 1 {
      assert rest == [] && [one] + rest == [one];
      OnlyHunkReads(f, hs);
    } else {
      FirstHunkReads(f, hs);
      HunksRead(f.(hunks := f.hunks + [one]), hs[1..]);
      assert (f.hunks + [one]) + rest == f.hunks + ([one] + rest);
    }
  }

  // ---- the header of a file ---------------------------------------------------------------

  lemma HeaderLines(path: string)
    ensures var t := HeaderTexts(path); MARK <= t[0] && IsHeader(t[1]) && IsHeader(t[2]) && !(MARK <= t[1]) && !(MARK <= t[2])
  {
    var t := HeaderTexts(path);
    assert t[1][0] == '-' && t[2][0] == '+';
  }

  lemma HeaderRead(f: DiffFile, path: string, rest: seq<string>)
    requires f.header == []
    ensures TakeLines(f, true, HeaderTexts(path) + rest) == TakeLines(f.(header := HeaderTexts(path)), false, rest)
  {
    var t := HeaderTexts(path);
    HeaderLines(path);
    var all := t + rest;
    var f1 := f.(header := [t[0]]);
    assert all[1..] == [t[1]] + ([t[2]] + rest);
    assert [] + [t[0]] == [t[0]];
    TakeStep(f1, t[1], [t[2]] + rest);
    var f2 := f1.(header := [t[0]] + [t[1]]);
    TakeStep(f2, t[2], rest);
    assert ([t[0]] + [t[1]]) + [t[2]] == t;
  }

  /** The lines of one printed file, read. */
  lemma FileReads(f: PatchFile)
    requires f.hunks != [] && forall h :: h in f.hunks ==> forall l :: l in h.lines ==> Readable(l)
    ensures TakeLines(DiffFile(f.path, f.path, [], []), true, FileTexts(f) + [""]) == FileReading(f)
  {
    var empty := DiffFile(f.path, f.path, [], []);
    assert FileTexts(f) + [""] == HeaderTexts(f.path) + (HunkTexts(f.hunks) + [""]);
    HeaderRead(empty, f.path, HunkTexts(f.hunks) + [""]);
    HunksRead(empty.(header := HeaderTexts(f.path)), f.hunks);
    assert [] + HunksReading(f.hunks) == HunksReading(f.hunks);
  }

  lemma FileWithoutHunks(f: PatchFile)
    requires f.hunks == []
    ensures TakeLines(DiffFile(f.path, f.path, [], []), true, FileTexts(f) + [""]).hunks == []
  {
    var empty := DiffFile(f.path, f.path, [], []);
    assert FileTexts(f) + [""] == HeaderTexts(f.path) + [""];
    HeaderRead(empty, f.path, [""]);
    TakeOne(empty.(header := HeaderTexts(f.path)), "");
  }

  // ---- the names of a file ------------------------------------------------------------------

  lemma {:induction false} RunIs(s: string, tail: string)
    requires forall i :: 0 <= i < |s| ==> !IsTerminator(s[i])
    requires tail == "" || IsTerminator(tail[0])
    ensures Run(s + tail) == |s|
  {
    if s == "" {
      assert s + tail == tail;
    } else {
      RunIs(s[1..], tail);
      assert (s + tail)[1..] == s[1..] + tail;
    }
  }

  lemma RunPositive(s: string)
    requires s != "" && !IsTerminator(s[0])
    ensures Run(s) > 0
  {
  }

  /** A second name can only start inside the path or after it. */
  lemma SeparatorAt(path: string, second: string, tail: string, k: nat)
    requires k < |path|
    ensures " b/" <= (path + " b/" + second + tail)[k..] <==> " b/" <= path[k..]
  {
    var s := path + " b/" + second + tail;
    assert s[|path|] == ' ';
    if " b/" <= s[k..] {
      assert s[k..][1] == 'b' && s[k..][2] == '/';
      assert s[k + 1] == 'b' && s[k + 2] == '/';
      assert k + 2 < |path|;
      assert path[k..][..3] == s[k..][..3];
    }
    if " b/" <= path[k..] {
      assert path[k..][..3] == s[k..][..3];
    }
  }

  lemma NamesAtEnd(path: string, second: string, tail: string)
    requires PlainPath(path) && PlainPath(second) && (tail == "" || IsTerminator(tail[0]))
    ensures Names(path + " b/" + second + tail, |path|) == Some((path, second))
  {
    var s := path + " b/" + second + tail;
    assert s[|path|..] == " b/" + (second + tail);
    assert s[|path| + 3..] == second + tail;
    RunIs(second, tail);
    assert s[..|path|] == path && (second + tail)[..|second|] == second;
  }

  lemma {:induction false} NamesFrom(path: string, second: string, tail: string, k: nat)
    requires PlainPath(path) && PlainPath(second) && (tail == "" || IsTerminator(tail[0])) && k <= |path|
    ensures Names(path + " b/" + second + tail, k) == Some((path, second)) <==>
      forall j :: k <= j < |path| && j >= 1 ==> !(" b/" <= path[j..])
    decreases |path| - k
  {
    var s := path + " b/" + second + tail;
    if k == |path| {
      NamesAtEnd(path, second, tail);
    } else {
      SeparatorAt(path, second, tail, k);
      assert s[k] == path[k];
      if k >= 1 && " b/" <= s[k..] {
        assert s[k + 3..] != "" && !IsTerminator(s[k + 3]);
        RunPositive(s[k + 3..]);
        assert |s[..k]| == k;
      } else {
        NamesFrom(path, second, tail, k + 1);
      }
    }
  }

  /** The header gives back both names exactly when no second name starts inside the
      first. */
  lemma NamesExact(path: string, second: string, tail: string)
    requires PlainPath(path) && PlainPath(second) && (tail == "" || IsTerminator(tail[0]))
    ensures FindNames(OPENING + path + " b/" + second + tail, true) == Some((path, second)) <==> NoSecondName(path)
  {
    NamesFrom(path, second, tail, 0);
    var s := path + " b/" + second + tail;
    assert OPENING + path + " b/" + second + tail == OPENING + s;
    assert (OPENING + s)[|OPENING|..] == s;
    NamesSome(path, second, tail, 0);
  }

  lemma {:induction false} NamesSome(path: string, second: string, tail: string, k: nat)
    requires PlainPath(path) && PlainPath(second) && (tail == "" || IsTerminator(tail[0])) && k <= |path|
    ensures Names(path + " b/" + second + tail, k).Some?
    decreases |path| - k
  {
    var s := path + " b/" + second + tail;
    if k == |path| {
      NamesAtEnd(path, second, tail);
    } else {
      assert s[k] == path[k];
      NamesSome(path, second, tail, k + 1);
    }
  }

  // ---- splitting into lines ---------------------------------------------------------------

  lemma {:induction false} LineSplit(l: string, rest: string, piece: string)
    requires '\n' !in l
    ensures Lines(l + "\n" + rest, piece) == [piece + l] + Lines(rest, "")
  {
    var s := l + "\n" + rest;
    if l == "" {
      assert s[1..] == rest && piece + "" == piece;
    } else {
      assert s[0] == l[0] && s[1..] == l[1..] + "\n" + rest;
      assert l[0] in l;
      LineSplit(l[1..], rest, piece + [l[0]]);
      assert (piece + [l[0]]) + l[1..] == piece + l;
    }
  }

  lemma {:induction false} LinesSplit(lines: seq<string>)
    requires forall l :: l in lines ==> '\n' !in l
    ensures Lines(Joined(lines), "") == lines + [""]
  {
    if lines != [] {
      LineSplit(lines[0], Joined(lines[1..]), "");
      LinesSplit(lines[1..]);
      assert "" + lines[0] == lines[0];
      assert [lines[0]] + (lines[1..] + [""]) == lines + [""];
    }
  }

  function Newlines(s: string): nat {
    if s == "" then 0 else (if s[0] == '\n' then 1 else 0) + Newlines(s[1..])
  }

  lemma {:induction false} LinesCount(s: string, piece: string)
    ensures |Lines(s, piece)| == 1 + Newlines(s)
    decreases |s|
  {
    if s != "" {
      if s[0] == '\n' { LinesCount(s[1..], ""); } else { LinesCount(s[1..], piece + [s[0]]); }
    }
  }

  lemma {:induction false} NewlinesConcat(a: string, b: string)
    ensures Newlines(a + b) == Newlines(a) + Newlines(b)
  {
    if a == "" {
      assert a + b == b;
    } else {
      NewlinesConcat(a[1..], b);
      assert (a + b)[1..] == a[1..] + b;
    }
  }

  lemma {:induction false} NewlinesNone(s: string)
    ensures Newlines(s) == 0 <==> '\n' !in s
  {
    if s != "" {
      NewlinesNone(s[1..]);
      assert s == [s[0]] + s[1..];
    }
  }

  lemma {:induction false} NewlinesJoined(lines: seq<string>)
    ensures Newlines(Joined(lines)) >= |lines|
    ensures Newlines(Joined(lines)) == |lines| <==> forall l :: l in lines ==> '\n' !in l
  {
    if lines != [] {
      NewlinesJoined(lines[1..]);
      NewlinesConcat(lines[0] + "\n", Joined(lines[1..]));
      NewlinesConcat(lines[0], "\n");
      NewlinesNone(lines[0]);
      assert Newlines("\n") == 1;
      assert lines == [lines[0]] + lines[1..];
    }
  }

  /** The printed lines come back exactly when none has a newline inside. */
  lemma LinesExact(lines: seq<string>)
    ensures Lines(Joined(lines), "") == lines + [""] <==> forall l :: l in lines ==> '\n' !in l
  {
    LinesCount(Joined(lines), "");
    NewlinesJoined(lines);
    if forall l :: l in lines ==> '\n' !in l { LinesSplit(lines); }
  }

  // ---- splitting into files ---------------------------------------------------------------

  /** A line the splitter passes over. */
  predicate Quiet(l: string, opens: bool) {
    '\n' !in l && !(opens && MARK <= l) && NoInnerMark(l)
  }

  /** The mark has no newline, so it never reaches over the end of a line. */
  lemma MarkInLine(l: string, rest: string)
    requires '\n' !in l
    ensures MARK <= l + "\n" + rest <==> MARK <= l
  {
    var s := l + "\n" + rest;
    assert s[|l|] == '\n' && '\n' !in MARK;
    if MARK <= s {
      assert |MARK| <= |l|;
      assert s[..|MARK|] == l[..|MARK|];
    }
    if MARK <= l {
      assert s[..|MARK|] == l[..|MARK|];
    }
  }

  lemma QuietNext(l: string, opens: bool)
    requires Quiet(l, opens) && l != ""
    ensures Quiet(l[1..], IsTerminator(l[0]))
  {
    forall i | 0 <= i < |l[1..]| && IsTerminator(l[1..][i])
      ensures !(MARK <= l[1..][i + 1..])
    {
      assert l[1..][i + 1..] == l[i + 2..] && l[1..][i] == l[i + 1];
    }
    if IsTerminator(l[0]) {
      assert !(MARK <= l[0 + 1..]);
    }
  }

  lemma {:induction false} QuietLine(l: string, rest: string, piece: string, opens: bool)
    requires Quiet(l, opens)
    ensures Chunks(l + "\n" + rest, piece, opens) == Chunks(rest, piece + l + "\n", true)
    decreases |l|
  {
    var s := l + "\n" + rest;
    MarkInLine(l, rest);
    if l == "" {
      assert s[0] == '\n' && s[1..] == rest;
      assert piece + "" + "\n" == piece + ['\n'];
    } else {
      assert s[0] == l[0] && s[1..] == l[1..] + "\n" + rest;
      QuietNext(l, opens);
      QuietLine(l[1..], rest, piece + [l[0]], IsTerminator(l[0]));
      Regroup(piece, l);
    }
  }

  lemma Regroup(piece: string, l: string)
    requires l != ""
    ensures piece + [l[0]] + l[1..] + "\n" == piece + l + "\n"
  {
    assert piece + [l[0]] + l[1..] == piece + l;
  }

  lemma {:induction false} QuietLines(lines: seq<string>, rest: string, piece: string)
    requires forall l :: l in lines ==> Quiet(l, true)
    ensures Chunks(Joined(lines) + rest, piece, true) == Chunks(rest, piece + Joined(lines), true)
    decreases |lines|
  {
    if lines == [] {
      assert Joined(lines) + rest == rest && piece + Joined(lines) == piece;
    } else {
      var l, more := lines[0], Joined(lines[1..]);
      assert Joined(lines) + rest == l + "\n" + (more + rest);
      QuietLine(l, more + rest, piece, true);
      QuietLines(lines[1..], rest, piece + l + "\n");
      assert piece + l + "\n" + more == piece + (l + "\n" + more);
    }
  }

  // ---- the lines of a printed file are quiet ------------------------------------------------

  lemma NoTerminatorQuiet(l: string, opens: bool)
    requires forall i :: 0 <= i < |l| ==> !IsTerminator(l[i])
    requires opens ==> !(MARK <= l)
    ensures Quiet(l, opens)
  {
  }

  lemma PathLines(path: string)
    requires PlainPath(path)
    ensures Quiet(HeaderTexts(path)[0][|MARK|..], false) && Quiet(HeaderTexts(path)[1], true) && Quiet(HeaderTexts(path)[2], true)
    ensures '\n' !in HeaderTexts(path)[0] && HeaderTexts(path)[0] == MARK + HeaderTexts(path)[0][|MARK|..]
  {
    var t := HeaderTexts(path);
    HeaderLines(path);
    var names := "a/" + path + " b/" + path;
    assert t[0] == MARK + names;
    assert t[0][|MARK|..] == names;
    NoTerminatorQuiet(names, false);
    NoTerminatorQuiet(t[1], true);
    NoTerminatorQuiet(t[2], true);
  }

  lemma LineQuiet(l: PatchLine)
    requires Readable(l)
    ensures Quiet(LineText(l), true)
  {
    var s, t := LineText(l), Text(l);
    LineIsNoMark(l);
    assert s[0] == Mark(l.kind) && s[1..] == t;
    forall i | 0 <= i < |s| && IsTerminator(s[i])
      ensures !(MARK <= s[i + 1..])
    {
      assert s[i + 1..] == t[i..] && t[i - 1] == s[i];
      assert t[(i - 1) + 1..] == t[i..];
    }
    forall c | c in s
      ensures c != '\n'
    {
      assert c == s[0] || c in t;
    }
  }

  lemma HunkHeaderQuiet(h: PatchHunk)
    ensures Quiet(HunkHeader(h), true)
  {
    HunkHeaderOpens(h);
    DecimalDigits(h.left.start);
    DecimalDigits(h.left.count);
    DecimalDigits(h.right.start);
    DecimalDigits(h.right.count);
    HeaderPlain(Decimal(h.left.start), Decimal(h.left.count), Decimal(h.right.start), Decimal(h.right.count));
    NoTerminatorQuiet(HunkHeader(h), true);
  }

  predicate NoTerminator(s: string) {
    forall i :: 0 <= i < |s| ==> !IsTerminator(s[i])
  }

  lemma PlainConcat(a: string, b: string)
    requires NoTerminator(a) && NoTerminator(b)
    ensures NoTerminator(a + b)
  {
  }

  lemma HeaderPlain(a: string, b: string, c: string, d: string)
    requires NoTerminator(a) && NoTerminator(b) && NoTerminator(c) && NoTerminator(d)
    ensures NoTerminator("@@ -" + a + "," + b + " +" + c + "," + d + " @@")
  {
    PlainConcat("@@ -", a);
    PlainConcat("@@ -" + a, ",");
    PlainConcat("@@ -" + a + ",", b);
    PlainConcat("@@ -" + a + "," + b, " +");
    PlainConcat("@@ -" + a + "," + b + " +", c);
    PlainConcat("@@ -" + a + "," + b + " +" + c, ",");
    PlainConcat("@@ -" + a + "," + b + " +" + c + ",", d);
    PlainConcat("@@ -" + a + "," + b + " +" + c + "," + d, " @@");
  }

  lemma {:induction false} LineTextsQuiet(ls: seq<PatchLine>, s: string)
    requires (forall l :: l in ls ==> Readable(l)) && s in LineTexts(ls)
    ensures Quiet(s, true)
  {
    if s == LineText(ls[0]) { LineQuiet(ls[0]); } else { LineTextsQuiet(ls[1..], s); }
  }

  lemma {:induction false} HunkTextsQuiet(hs: seq<PatchHunk>, s: string)
    requires (forall h :: h in hs ==> forall l :: l in h.lines ==> Readable(l)) && s in HunkTexts(hs)
    ensures Quiet(s, true)
  {
    if s == HunkHeader(hs[0]) {
      HunkHeaderQuiet(hs[0]);
    } else if s in LineTexts(hs[0].lines) {
      LineTextsQuiet(hs[0].lines, s);
    } else {
      HunkTextsQuiet(hs[1..], s);
    }
  }

  // ---- the whole patch ------------------------------------------------------------------------

  /** A file's chunk: its text after the mark. */
  function Body(f: PatchFile): string {
    HeaderTexts(f.path)[0][|MARK|..] + "\n" + Joined(FileTexts(f)[1..])
  }

  function Bodies(files: seq<PatchFile>): seq<string> {
    if files == [] then [] else [Body(files[0])] + Bodies(files[1..])
  }

  lemma BodyText(f: PatchFile)
    ensures Joined(FileTexts(f)) == MARK + Body(f)
  {
    var t := HeaderTexts(f.path)[0];
    assert FileTexts(f)[0] == t;
    assert t == MARK + t[|MARK|..] by {
      assert t == MARK + ("a/" + f.path + " b/" + f.path);
    }
    var more := Joined(FileTexts(f)[1..]);
    assert MARK + t[|MARK|..] + "\n" + more == MARK + (t[|MARK|..] + "\n" + more);
  }

  lemma OtherLinesQuiet(f: PatchFile, s: string)
    requires ReadableFile(f) && s in FileTexts(f)[1..]
    ensures Quiet(s, true)
  {
    PathLines(f.path);
    var t := HeaderTexts(f.path);
    assert FileTexts(f)[1..] == [t[1]] + [t[2]] + HunkTexts(f.hunks);
    if s != t[1] && s != t[2] { HunkTextsQuiet(f.hunks, s); }
  }

  lemma FileChunk(f: PatchFile, rest: string, piece: string)
    requires ReadableFile(f)
    ensures Chunks(Joined(FileTexts(f)) + rest, piece, true) == [piece] + Chunks(rest, Body(f), true)
  {
    BodyText(f);
    PathLines(f.path);
    var names, lines := HeaderTexts(f.path)[0][|MARK|..], FileTexts(f)[1..];
    var s := Joined(FileTexts(f)) + rest;
    assert s == MARK + (Body(f) + rest);
    assert s[|MARK|..] == Body(f) + rest;
    assert Body(f) + rest == names + "\n" + (Joined(lines) + rest);
    QuietLine(names, Joined(lines) + rest, "", false);
    assert "" + names + "\n" == names + "\n";
    forall l | l in lines ensures Quiet(l, true) { OtherLinesQuiet(f, l); }
    QuietLines(lines, rest, names + "\n");
  }

  lemma {:induction false} PatchChunks(files: seq<PatchFile>, piece: string)
    requires forall f :: f in files ==> ReadableFile(f)
    ensures Chunks(Patch(files), piece, true) == [piece] + Bodies(files)
    decreases |files|
  {
    if files == [] {
      assert [piece] + Bodies(files) == [piece];
    } else {
      FileChunk(files[0], Patch(files[1..]), piece);
      PatchChunks(files[1..], Body(files[0]));
    }
  }

  lemma FileLines(f: PatchFile)
    requires ReadableFile(f)
    ensures Lines(Joined(FileTexts(f)), "") == FileTexts(f) + [""]
  {
    PathLines(f.path);
    forall l | l in FileTexts(f)
      ensures '\n' !in l
    {
      if l != FileTexts(f)[0] { OtherLinesQuiet(f, l); }
    }
    LinesSplit(FileTexts(f));
  }

  lemma BodyNamed(f: PatchFile)
    requires ReadableFile(f)
    ensures !Blank(Body(f)) && FindNames(MARK + Body(f), true) == Some((f.path, f.path))
  {
    var names, tail := "a/" + f.path + " b/" + f.path, "\n" + Joined(FileTexts(f)[1..]);
    assert HeaderTexts(f.path)[0] == MARK + names;
    assert HeaderTexts(f.path)[0][|MARK|..] == names;
    assert Body(f) == names + tail;
    assert Body(f)[0] == 'a';
    BodyNames(f.path, tail);
    NamesExact(f.path, f.path, tail);
  }

  lemma BodyReads(f: PatchFile)
    requires ReadableFile(f)
    ensures FileOf(Body(f)) == if f.hunks == [] then None else Some(FileReading(f))
  {
    BodyText(f);
    BodyNamed(f);
    FileLines(f);
    if f.hunks == [] { FileWithoutHunks(f); } else { FileReads(f); }
  }

  lemma BodyNames(path: string, tail: string)
    ensures MARK + ("a/" + path + " b/" + path + tail) == OPENING + path + " b/" + path + tail
  {
    assert MARK + "a/" == OPENING;
    assert MARK + ("a/" + path + " b/" + path + tail) == (MARK + "a/") + path + " b/" + path + tail;
  }

  lemma {:induction false} BodiesRead(files: seq<PatchFile>)
    requires forall f :: f in files ==> ReadableFile(f)
    ensures FilesOf(Bodies(files)) == PatchReading(files)
  {
    if files != [] {
      BodyReads(files[0]);
      BodiesRead(files[1..]);
      assert Bodies(files)[0] == Body(files[0]) && Bodies(files)[1..] == Bodies(files[1..]);
    }
  }

  /** Parsing what was printed gives the files with hunks back: their paths,
      headers and ranges, and every line with its type, text and numbers, and one
      empty context line at the end of each file. */
  lemma RoundTrip(files: seq<PatchFile>)
    requires forall f :: f in files ==> ReadableFile(f)
    ensures Parsed(Patch(files)) == PatchReading(files)
  {
    if files != [] {
      BodyText(files[0]);
      assert Patch(files)[0] == 'd';
      assert !Blank(Patch(files));
      PatchChunks(files, "");
      BodiesRead(files);
      var chunks := [""] + Bodies(files);
      assert chunks[0] == "" && chunks[1..] == Bodies(files);
      assert Blank("") && FileOf(chunks[0]) == None;
      assert [] + FilesOf(Bodies(files)) == FilesOf(Bodies(files));
    }
  }
}
